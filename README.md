# template-specialize configuration engines in Dafny

template-specialize renders templates against a set of variables. It
reads those variables from named *environments*. An environment holds
dotted-key assignments such as `a.b.0 = 12`, and it may inherit from
parent environments. Resolving an environment turns it and its
ancestors into one nested value of dicts and lists. The repository holds
three generations of this engine, and each one is modelled here as its
own group of modules.

* **Line-format engine** (`template_specialize/environment.py`):
  * `Text`, `Literals` and `LineSyntax` hold the character classes, the
    literal parsers and the three line grammars.
  * `LineModel` is the specification, written as functions:
    * the record store;
    * the effect of one line of `parse`;
    * the depth-first walk over parents, with its on-path set;
    * the per-prefix `lists`/`types` checks of `_iterate_values`;
    * the containers `asdict` builds.
  * `LineFormat` holds the classes `Environment` and `Environments`.
    Their methods update fields and maps, and each method is proved to
    compute its `LineModel` function.
  * `LineParse`, `LineWalk`, `LineTree` and `LineCheck` prove what
    parsing, walking and materialising promise.
* **YAML-tree engine** (`src/template_specialize/main.py`):
  * `TreeModel` defines the deep merge, the parents-first environment
    merge with its visited set, and the validation of a decoded document,
    and proves their properties.
  * `TreeMerge` holds the loops and recursive methods, which are proved
    to compute those functions.
  * `TreeCases` checks the values that `src/tests/test_main.py` expects.
* **Oldest engine** (class `Environment` of `template_specialize/__init__.py`):
  * `LegacySyntax` holds this engine's own grammars.
  * `LegacyModel` uses the state of the scan for `parse`, which raises at
    the first bad line. For `asdict`/`_add_value` it keeps a heap of
    list and dict objects, because the code relies on object identity
    and on `==` between lists.
  * `LegacyFormat` holds the classes `Environments` and `Container`.
  * `LegacyProps` and `LegacyCases` hold the properties and the cases
    from the tests.

Decisions worth knowing:

* **No I/O.** Files, the command line, YAML decoding and Jinja rendering
  are outside the model. Lines come in as a sequence of strings, and a
  YAML document comes in as an already-decoded `Tree`.
* **Error lists.** `errors=None` in `environment.py` is modelled as a
  list that is filled and then dropped. No branch of the code depends on
  whether errors are kept.
* **Generators.** `_iterate_values_inner` becomes a sequence of events,
  each one either a value handed out or an error recorded, in the order
  the generator would produce them. `_iterate_values` consumes that
  sequence one event at a time.
* **Unknown root names.** An environment name that is not in the store
  raises `KeyError` in both `asdict` implementations: `self[name]` at
  `template_specialize/environment.py:216` and `environments[name]` at
  `template_specialize/__init__.py:180`. The model follows the code.
* **Recursion limit.** The old `asdict` has no cycle check, so a cycle
  recurses until Python raises `RecursionError`. The model counts the
  recursion with a `depth` parameter and returns `RecursionError` when
  the count runs out.
* **Numbers.** `float()` follows Python's grammar: an optional sign,
  then `inf`, `infinity` or `nan` in any case, or digits with single
  underscores, an optional point and an optional exponent. The model
  reads the exact decimal that the text writes (`Floats.FloatValue`).
  Python's `==` between bool, int and float compares these exact values.
* **Dict keys.** A decoded YAML dict finds a key by Python's `==`. So
  `1`, `True` and `1.0` are one key, and receiving that key keeps the
  first key object. The model compares keys through `TreeModel.IdOf`, a
  normal form for each value.
* **List membership.** `container in new_lists` compares lists with `==`.
  The model takes a `ListTest` parameter:
  * `ByEquality` is the code as written;
  * `ByIdentity` asks whether the list object was made during this call.

  See "## Findings" for why the two differ.

## Model

| member | source | states |
|---|---|---|
| Literals.ParseKey | template_specialize/environment.py:22-24 | the key has exactly one part per '.'-separated piece (count of '.' plus one), and part i is the parse of piece i |
| Literals.KeyPartKinds | template_specialize/environment.py:16-20 | a digit piece becomes an int part with the value of its digits; a piece that starts like an identifier stays a str part |
| LineSyntax.KeyTextSegments | template_specialize/environment.py:75 | under the assignment grammar the first part is always a str, and every later part is an int exactly when it is a digit run |
| Literals.ParseValueForms | template_specialize/environment.py:26-42 | `true`/`false` give booleans; a leading '"' drops the first and the last character whether or not the last is a quote; otherwise int() wins, then float() gives a float token, and any other text stays a string; so a digit run is an int and digits with a point are a float token |
| LineSyntax.ValueTextParses | template_specialize/environment.py:75 | each of the four literal forms the value grammar admits parses to the value it denotes |
| Literals.PointNumberIsFloat | template_specialize/environment.py:34-41 | a number with a point is rejected by int() and accepted as a float token, and it is neither true/false nor quoted |
| Floats.NormSame | src/template_specialize/main.py:232 | two decimals have the same normal form exactly when Python's `==` finds them equal |
| TreeModel.KeyIdIsEquality | src/template_specialize/main.py:232 | two atoms other than NaN have the same key identity exactly when Python's `==` finds them equal, across bool, int and float |
| TreeModel.LookupById | src/template_specialize/main.py:232 | `dst.get` finds the same entry for any two keys that are equal |
| TreeCases.EqualKeysMerged | src/template_specialize/main.py:228-233 | merging `{1: "x"}` into `{True: "y"}` gives `{True: "x"}`, and `{1.0: "x"}` into `{1: "y"}` gives `{1: "x"}` |
| Literals.FloatPadded | template_specialize/environment.py:38-41 | float() strips the whitespace around its argument |
| Literals.IntPadded | template_specialize/environment.py:34-37 | int() strips the whitespace around its argument |
| Literals.FloatNamed | template_specialize/environment.py:38-41 | `inf`, `infinity` and `nan` in any case, signed or not, are the infinities and NaN |
| Literals.FloatExponentForm | template_specialize/environment.py:38-41 | digits, `e` or `E` and an exponent are the digits times ten to the exponent, or over ten to its negation |
| Literals.ExponentDigits | template_specialize/environment.py:38-41 | the exponent after the mark may carry a sign |
| Literals.FloatGroupsPoint | template_specialize/environment.py:38-41 | digit groups, a point and digit groups are the digits over ten to the number of digits after the point; underscores count for nothing |
| Literals.PointValue | template_specialize/environment.py:38-41 | digits, a point and digits are read as the decimal they write |
| Literals.FloatNaNCase | template_specialize/environment.py:38-41 | `nan` is NaN |
| Literals.FloatBareExponent | template_specialize/environment.py:38-41 | `1e` is rejected |
| Literals.FloatBarePoint | template_specialize/environment.py:38-41 | `.` is rejected |
| Literals.ValueUnclosedQuote | template_specialize/environment.py:32-33 | `"abc` gives `ab`, and a lone `"` gives the empty string |
| Literals.ValueWord | template_specialize/environment.py:42 | `abc` stays the string `abc` |
| Literals.ValueEmpty | template_specialize/environment.py:42 | the empty text stays the empty string |
| Literals.ValueNegative | template_specialize/environment.py:34-35 | `-3` is the int -3 |
| Literals.ValueUnderscores | template_specialize/environment.py:34-35 | `1_000` is the int 1000 |
| Literals.ParseIntDigits | template_specialize/environment.py:17-18 | int() of a digit run is the number the digits write |
| Literals.ParseIntIdentifier | template_specialize/environment.py:17-20 | int() rejects a piece that starts like an identifier, so the piece stays a str |
| Literals.IntRoundTrip | template_specialize/environment.py:177 | int(str(i)) == i for every integer, so printing an int key part and reading it back gives the same part |
| Literals.IndexSortsBeforeField | template_specialize/environment.py:44-50 | at the first position where an int part meets a str part, the key with the int sorts first |
| Literals.KeyLessTotal | template_specialize/environment.py:44-50 | any two different keys are ordered one way or the other |
| Literals.KeyLessTransitive | template_specialize/environment.py:44-50 | the key order is transitive |
| Literals.KeyLessIrreflexive | template_specialize/environment.py:44-50 | no key sorts before itself |
| Literals.KeyLessAsymmetric | template_specialize/environment.py:44-50 | two keys never sort before each other |
| Literals.SortByKeySorted | template_specialize/environment.py:245 | sorted() of values with distinct keys is strictly ascending in the key order |
| Literals.SortByKey | template_specialize/environment.py:245 | sorted() returns a permutation of its input |
| Literals.SortIgnoresOrder | template_specialize/environment.py:245 | two orderings of the same values with distinct keys sort to the same list, so the order in which indices are declared does not matter |
| Literals.SortedUnique | template_specialize/environment.py:245 | two strictly ascending lists with the same elements are equal |
| LineModel.MakeKeyValue | template_specialize/environment.py:12-13 | the parsed key has one part per '.'-separated piece of the key text |
| LineModel.AddValueTo | template_specialize/environment.py:59-67 | a key already present leaves the values unchanged and appends `file:line: Redefinition of value "k"`; otherwise exactly one entry is appended at the end and no error is added; name, parents and location never change |
| LineFormat.Environment.AddValue | template_specialize/environment.py:59-67 | the method has the effect of AddValueTo on the object and returns None for a duplicate key, else the new key/value |
| LineModel.AddValueKeepsRecord | template_specialize/environment.py:59-67 | adding a value keeps a record well formed: its keys stay distinct and non-empty |
| LineModel.AddEnvironmentTo | template_specialize/environment.py:77-84 | an existing name keeps its record (parents included) and gets a redefinition error exactly when the parents differ; a new name is inserted with no values and no error |
| LineFormat.Environments.AddEnvironment | template_specialize/environment.py:77-84 | the method has the effect of AddEnvironmentTo, returns the stored object and creates a new object only for a new name |
| LineFormat.Environment.constructor | template_specialize/environment.py:56-57 | a new record has the given name, parents and location and no values |
| LineSyntax.CommentLines | template_specialize/environment.py:73 | a blank line and a line whose first non-blank character is '#' are comments |
| LineSyntax.MatchHeader | template_specialize/environment.py:74 | a matched header has an identifier name and, when it has parentheses, a non-empty list of identifier parents |
| LineSyntax.HeaderRoundTrip | template_specialize/environment.py:74 | `name:` and `name(p1,...,pn):` are recognised with exactly that name and those parents |
| LineSyntax.MatchAssignment | template_specialize/environment.py:75 | a matched assignment has a key of the key grammar and a value of the value grammar |
| LineSyntax.AssignmentRoundTrip | template_specialize/environment.py:75 | an indented `key = value`, with any blanks around '=' and at the end, is recognised with that key and value |
| LineSyntax.LineKindsExclusive | template_specialize/environment.py:93-97 | a comment is neither a header nor an assignment, and no line is both a header and an assignment |
| LineFormat.Environments.Parse | template_specialize/environment.py:86-114 | parse never fails: the new store and the returned error list are those of ParseLines over all the lines, numbered from 1 |
| LineFormat.Environments.ParseOneLine | template_specialize/environment.py:92-112 | one turn of the loop has the effect of ParseLine on the store, the current environment and the errors |
| LineFormat.Environments.ParseHeader | template_specialize/environment.py:102-106 | a header line has the effect of HeaderStep and selects the environment it names |
| LineFormat.Environments.AddToCurrent | template_specialize/environment.py:107-110 | an assignment changes only the current record, as AddValueTo says |
| LineParse.CommentLine | template_specialize/environment.py:100-101 | a blank or comment line changes nothing |
| LineParse.HeaderLine | template_specialize/environment.py:102-106 | a header selects its environment; a new name is inserted with no values; an existing one is kept and gets an error only when its parents differ |
| LineParse.AssignmentLine | template_specialize/environment.py:107-110 | an assignment under a header appends its value to the current environment only, or records a value redefinition and changes nothing |
| LineParse.SyntaxErrorLine | template_specialize/environment.py:111-112 | any other line, including an assignment before any header, appends `file:N: Syntax error: "line"` and changes nothing else |
| LineParse.ParseLinesExtends | template_specialize/environment.py:86-114 | parsing more lines never loses an error, an environment or a value |
| LineParse.ParseLinesStep | template_specialize/environment.py:90 | line i + 1 is processed in the state the first i lines leave |
| LineParse.ParsedCleanCheckAsDict | template_specialize/environment.py:116-156 | for a store that parse built, if check reports nothing then asdict succeeds, every value it hands on is written where its key says unless a later one overwrites it, and every leaf comes from a value |
| LineWalk.WalkSound | template_specialize/environment.py:215-245 | the walk hands out only values stored in some environment, and reports only known children with unknown or circular parents |
| LineWalk.UnknownParentReported | template_specialize/environment.py:221-228 | a parent that is not in the store is reported with an error naming the child and the parent |
| LineWalk.CircularParent | template_specialize/environment.py:231-238 | a parent already on the recursion path is reported and not entered |
| LineWalk.EnteredParent | template_specialize/environment.py:240-243 | a known parent that is not on the path is walked with itself added to the path |
| LineWalk.SelfParent | template_specialize/environment.py:215-245 | a self-parent is walked once, reports one circular error, and the walk ends |
| LineWalk.RankedNoReports | template_specialize/environment.py:215-245 | in a store whose parents are all known and acyclic the walk reports nothing |
| LineModel.Yields | template_specialize/environment.py:245 | the own values are handed out one by one, in order |
| LineModel.WalkKeysNonEmpty | template_specialize/environment.py:215-245 | every value the walk hands out has a non-empty key |
| LineFormat.Environments.IterateValues | template_specialize/environment.py:158-213 | the method returns the values IterateValues hands on and the errors it records, or KeyError for an unknown name |
| LineFormat.IterateStore | template_specialize/environment.py:158-213 | the loop over the events computes IterateValues |
| LineFormat.ScanOne | template_specialize/environment.py:162-213 | one event updates the tables, errors and output as ScanEvent does |
| LineFormat.CheckKeyValue | template_specialize/environment.py:163-210 | the checks on one value compute CheckValue: the tables, the errors added and the skip flag |
| LineFormat.CheckPrefix | template_specialize/environment.py:166-196 | one prefix check updates `lists`, `types`, the errors and the skip flag as PrefixStep says |
| LineModel.Note | template_specialize/environment.py:179-180 | a deduplicated error is in the list afterwards, and at most it is appended once at the end |
| LineCheck.CheckValueNotes | template_specialize/environment.py:163-213 | the checks only add errors, and a skipped value always leaves an error behind |
| LineCheck.PrefixRunClean | template_specialize/environment.py:166-196 | a prefix loop that does not skip passed every check and made only its table updates |
| LineCheck.CheckValueClean | template_specialize/environment.py:163-213 | a value that is not skipped has contiguous indices and consistent kinds along its key, and its key is new or already a leaf |
| LineCheck.ScanErrorsGrow | template_specialize/environment.py:158-213 | errors are only ever appended during the scan |
| LineCheck.CleanScan | template_specialize/environment.py:158-213 | a scan without errors hands on every value and the tables describe the containers built so far |
| LineCheck.CleanWrite | template_specialize/environment.py:127-154 | a value that passes the checks is written at its key, leaves every path branching off its key unchanged, and the tables still describe the new tree |
| LineTree.PutShape | template_specialize/environment.py:127-154 | writing a key that fits the tree succeeds, keeps the root's kind, grows a list to cover the index and leaves the value at the key |
| LineTree.PutAside | template_specialize/environment.py:127-154 | a write leaves every path that branches off its key as it was |
| LineCheck.CleanAsDict | template_specialize/environment.py:124-156 | when _iterate_values reports nothing, asdict succeeds, each value is where its key says unless a later one overwrites it, and every leaf comes from some value |
| LineCheck.CleanCheckAsDict | template_specialize/environment.py:116-156 | when check over names that include `name` reports nothing, asdict(name) succeeds, with last writer wins and no stray leaves |
| LineCheck.CheckNamesGrow | template_specialize/environment.py:116-122 | check only appends errors to the list it is given |
| LineCheck.NegativeIndexPassesCheck | template_specialize/environment.py:129-152 | a value at key `a.-1`, put in through add_value, passes check and makes asdict raise IndexError |
| LineFormat.Environments.Check | template_specialize/environment.py:116-122 | check runs _iterate_values over every environment in name order and returns the errors CheckNames collects |
| LineFormat.CheckStore | template_specialize/environment.py:119-121 | the loop over the given names computes CheckNames |
| LineFormat.Environments.SortedNames | template_specialize/environment.py:119 | the names are sorted(self.keys()) |
| LineFormat.SortedKeysSorted | template_specialize/environment.py:119 | the sorted names list every name once, in ascending code-point order |
| LineFormat.Environments.AsDict | template_specialize/environment.py:124-156 | asdict(name) returns the container LineModel.AsDict builds, or the exception the code raises (KeyError, TypeError, IndexError, AttributeError) |
| LineFormat.MaterialiseStops | template_specialize/environment.py:126-154 | once one write raises, asdict raises that exception |
| TreeMerge.MergeValues | src/template_specialize/main.py:217-234 | `_merge_values` computes Merge: a scalar src replaces dst, a list src merges into dst's list or a new one, and a dict src merges into dst's dict or a new one |
| TreeMerge.MergeListValues | src/template_specialize/main.py:218-227 | the list loop computes Merge for a list src |
| TreeMerge.MergeDictValues | src/template_specialize/main.py:228-233 | the dict loop computes Merge for a dict src |
| TreeModel.MergeList | src/template_specialize/main.py:218-227 | a list merge is as long as the longer list; position k merges src[k] into dst[k] below len(dst), copies src[k] beyond it, and keeps dst[k] beyond len(src) |
| TreeModel.MergeDict | src/template_specialize/main.py:228-233 | a dict merge holds, under each src key, src's value merged into dst's value for the equal key; keys equal to none in src are untouched; new keys follow dst's keys in src's order, with keys compared by Python's `==` |
| TreeModel.MergeIntoNone | src/template_specialize/main.py:226 | merging a well-formed value into None copies it |
| TreeModel.MergeIdempotent | src/template_specialize/main.py:217-234 | merging the same src twice gives what merging it once gives |
| TreeModel.StoreSpec | src/template_specialize/main.py:232 | `dst[key] = v` makes every key equal to key map to v and leaves the others alone; an existing entry keeps its key object, and a new key is appended |
| TreeModel.Lookup | src/template_specialize/main.py:232 | `dst.get(key)` finds a value exactly when a key equal to key (by IdOf) is present, and the value is that entry's |
| TreeCases.ListTailKept | src/tests/test_main.py:1174-1191 | `[4,5]` merged into `[1,2,3]` gives `[4,5,3]` |
| TreeCases.DictKeysMerged | src/tests/test_main.py:1174-1191 | dict keys of both sides are merged and keys only in dst stay |
| TreeCases.KindsReplaced | src/tests/test_main.py:1193-1210 | a scalar replaces a list, and a dict replaces a scalar |
| TreeMerge.MergeEnvironment | src/template_specialize/main.py:199-214 | `_merge_environment` computes MergeEnv: unknown name fails, parents merge first in order, own values last |
| TreeMerge.MergeParentsOf | src/template_specialize/main.py:204-210 | the loop over the parents computes MergeParents |
| TreeMerge.MergeNextParent | src/template_specialize/main.py:206-210 | a parent already visited ends the loop with a circular-inheritance error; any other is merged and the loop goes on with its result |
| TreeMerge.MergeParent | src/template_specialize/main.py:208-210 | the parent is merged with itself added to visited, and visited is restored afterwards |
| TreeMerge.ParentStep | src/template_specialize/main.py:205-210 | the parents loop is the outcome of the first parent followed by the loop over the rest |
| TreeModel.MergeEnvErrors | src/template_specialize/main.py:199-214 | an unknown name is the root or is reached from it through parents, and is missing from the store; a circular name is reached through parents and is in visited or already on that chain |
| TreeModel.SelfParentCircular | src/template_specialize/main.py:206-207 | an environment that is its own parent fails with circular inheritance naming itself |
| TreeModel.RankedMerge | src/template_specialize/main.py:199-214 | in an acyclic store with known parents the merge succeeds and applies the own values of the ancestors in parents-first order |
| TreeModel.ApplyAllAppend | src/template_specialize/main.py:211-213 | applying the values of a + b is applying a's, then b's |
| TreeCases.UnknownNamed | src/tests/test_main.py:1126-1137 | an unknown environment and an unknown parent each fail naming the missing environment |
| TreeCases.FirstEnvironment | src/tests/test_main.py:1058-1092 | an environment without parents merges into None as its own values |
| TreeCases.SelfParentFails | src/tests/test_main.py:1139-1152 | a self-parent fails with circular inheritance |
| TreeModel.CheckEntry | src/template_specialize/main.py:183-195 | an entry is accepted exactly when its name is a string not yet stored and its record passes the metadata, parents and values checks |
| TreeModel.ParseEntriesOk | src/template_specialize/main.py:182-196 | the entries are all accepted exactly when no error is raised, and then each is stored verbatim under its name |
| TreeModel.ParseEntriesAdds | src/template_specialize/main.py:182-196 | parsing keeps every existing environment, adds only decoded entries, and keeps the store well formed |
| TreeMerge.Environments.Parse | src/template_specialize/main.py:176-196 | the store and the error afterwards are ParseEnvironments of the old store and the document |
| TreeMerge.Environments.CheckRecord | src/template_specialize/main.py:183-195 | the checks of one entry, in the code's order, give CheckEntry's error |
| TreeMerge.Environments.MergeInto | src/template_specialize/main.py:56 | the merge starts with an empty visited set |
| TreeCases.ParseRejects | src/tests/test_main.py:967-1053 | a non-dict container, a redefinition, non-dict metadata, bad parents and non-dict values are each rejected with their error, leaving the store unchanged |
| TreeCases.ParseAccepts | src/tests/test_main.py:931-965 | accepted environments are stored as decoded |
| LegacySyntax.MatchLegacyHeader | template_specialize/__init__.py:99 | a matched header has a `\w+` name that starts the line and, with parentheses, a word first and possibly empty words after |
| LegacySyntax.LegacyHeaderRoundTrip | template_specialize/__init__.py:99 | `name:` gives parents None; `name(p1,...):` gives the list of parents; a name may start with a digit |
| LegacySyntax.HeaderNeedsWords | template_specialize/__init__.py:99 | a parent that is not a word once stripped makes the header fail |
| LegacySyntax.MatchLegacyAssignment | template_specialize/__init__.py:100-101 | a matched assignment has a key of `[A-Za-z0-9_-]+` pieces joined by dots and a value of the value grammar |
| LegacySyntax.LegacyAssignmentRoundTrip | template_specialize/__init__.py:100-101 | an indented assignment with a legacy key is recognised with that key and value |
| LegacySyntax.LegacyLineKindsExclusive | template_specialize/__init__.py:139-143 | a comment is neither header nor assignment, and a header is no assignment |
| LegacyCases.OnePartKey | template_specialize/__init__.py:110-112 | a one-word key is one part |
| LegacyCases.TwoPartKey | template_specialize/__init__.py:110-112 | a dotted key of two words is two parts, classified as the newer module does |
| LegacyFormat.Environments.Parse | template_specialize/__init__.py:132-169 | parse updates the store as LegacyModel.Parse says and returns its error: the store reached before the first bad line, and that line's message |
| LegacyFormat.Environments.ParseOneLine | template_specialize/__init__.py:139-167 | one line has the effect of ParseLine, and on an error changes nothing |
| LegacyFormat.Environments.ParseHeader | template_specialize/__init__.py:148-157 | a header has the effect of HeaderLine |
| LegacyFormat.Environments.Install | template_specialize/__init__.py:155 | the name is bound to a new object holding exactly the given record, and no other name changes |
| LegacyFormat.Environments.ParseAssignment | template_specialize/__init__.py:158-165 | an assignment has the effect of AssignLine on the current object |
| LegacyProps.CommentSkipped | template_specialize/__init__.py:146-147 | a comment line changes nothing |
| LegacyProps.HeaderCases | template_specialize/__init__.py:148-157 | a new name starts with no values; parents on a parent-less environment are set and its values kept; different non-empty parents raise `Inconsistent definition of environment`; a bare or equal header continues the same environment |
| LegacyProps.AssignmentCases | template_specialize/__init__.py:158-165 | an assignment under a header appends (key, value, name), or raises `Redefinition of value "k"` when that key is already present |
| LegacyProps.SyntaxErrorLine | template_specialize/__init__.py:166-167 | any other line raises `:N: Syntax error : "line"` |
| LegacyProps.FirstErrorStops | template_specialize/__init__.py:136-167 | parse stops at the first bad line with the store reached before it and that line's message |
| LegacyProps.ParseKeeps | template_specialize/__init__.py:132-169 | parse never removes an environment, never drops a value and never changes parents once set |
| LegacyProps.ParseFromKeeps | template_specialize/__init__.py:136-167 | the same holds over any lines, whether the scan fails or not |
| LegacyCases.ParseErrorCase | template_specialize/tests/test.py:151-161 | the third line of the test raises `:3: Syntax error : "    a.b = foo"` after the first two lines defined env1 |
| LegacyFormat.Environments.AsDict | template_specialize/__init__.py:171-185 | asdict returns the heap LegacyModel.AsDict builds, or the exception it raises |
| LegacyFormat.AsDictOf | template_specialize/__init__.py:171-185 | extra values first with their own new_lists, then the environment, give LegacyModel.AsDict |
| LegacyFormat.Container.Fill | template_specialize/__init__.py:179-185 | writing one environment and its parents into the container computes AsDictInto |
| LegacyFormat.Container.FillParents | template_specialize/__init__.py:182-184 | the loop over the parents computes AsDictParents |
| LegacyFormat.Container.AddOwn | template_specialize/__init__.py:179-181 | the sorted own values are written with one fresh new_lists, as OwnValues says |
| LegacyFormat.Container.AddEach | template_specialize/__init__.py:177-178 | the loop of `_add_value` calls computes AddEach |
| LegacyFormat.Container.AddValue | template_specialize/__init__.py:187-205 | `_add_value` computes LegacyModel.AddValue on the heap |
| LegacyFormat.Container.Step | template_specialize/__init__.py:190-199 | one step down the key computes Descend |
| LegacyFormat.Container.NewContainer | template_specialize/__init__.py:193-197 | a new list is recorded in new_lists, a new dict is not |
| LegacyFormat.Container.SetLast | template_specialize/__init__.py:200-205 | the last part computes Final |
| LegacyProps.SortedOrders | template_specialize/__init__.py:180 | sorted() of values with distinct keys that does not raise is ascending and a permutation |
| LegacyProps.AsDictIgnoresOrder | template_specialize/__init__.py:180 | asdict gives the same result whatever the order of each environment's value lines |
| LegacyProps.FirstWriterWins | template_specialize/__init__.py:204-205 | what the container held at a dict route before an environment is written, it holds afterwards |
| LegacyProps.AddValuePlaces | template_specialize/__init__.py:187-205 | a field-only key whose route is free is written with its value |
| LegacyProps.ParentsNeverExtend | template_specialize/__init__.py:200-202 | with the identity test, writing the parents never changes the length of a list that existed before |
| LegacyProps.UnknownRaises | template_specialize/__init__.py:180-184 | an unknown parent raises KeyError |
| LegacyProps.SelfParentFails | template_specialize/__init__.py:182-184 | an environment among whose own parents it appears never yields a container |
| LegacyProps.SelfParentRecursion | template_specialize/__init__.py:182-184 | a self-parent first in line with no values raises RecursionError |
| LegacyCases.EqualityExtendsChildList | template_specialize/__init__.py:201 | with `==` a parent appends to the child's list `[1]`, giving `[1, 2]` |
| LegacyCases.IdentityKeepsChildList | template_specialize/__init__.py:201 | with the identity test the child's list stays `[1]` |

## Left out

- Command-line entry points (`main` in all three files): argument parsing, directory walks, file reads and writes, Jinja rendering and the rename extension. They are I/O.
- YAML and JSON decoding. `_parse_environments` takes the decoded `Tree`.
- The AWS parameter-store extensions. They are network clients.
- Regular expressions beyond ASCII. `\s`, `\w` and `\d` are their ASCII members.
- `str.splitlines()`. Lines arrive as a sequence of strings.
- Floating point rounding. A float is the exact decimal its text writes, not the nearest double, so two texts that round to the same double but write different decimals count as different numbers. For the same reason `1e400` is finite here, although Python reads it as `inf`.
- A float literal keeps its text in the line-format engines (`Literals.Scalar.Float`); no arithmetic is done on it.
- TreeModel.KeyIdIsEquality: excludes NaN. Python finds a NaN key only through the same object, since NaN is not `==` to itself; the model treats every NaN key as one key.
- TreeModel.Lookup: compares keys by `==` on values; a NaN key is found by any NaN, as the line above says.
- LegacyModel.AtomEq: compares two NaN floats as unequal, as `==` does; Python's list comparison first tests identity, which the model does not track for scalars.
- Insertion order of the dicts `asdict` builds in the line-format engines (`LineModel` containers) and in the oldest engine (`LegacyModel.DictObj`). They are `map`s keyed by key part, so their order is not modelled. The YAML-tree engine keeps dicts as sequences of entries, in order.
- Message formatting of `src/template_specialize/main.py`. Errors are kinds with the environment's name, without `repr` and `.100s` truncation.
- TreeMerge.MergeValues: works on values, so it does not state that a dst of src's kind is updated in place and returned as the same object.
- TreeMerge.MergeParent: models the visited set as a value passed in and handed back, not one shared set object mutated across calls.
- LegacyModel.AsDict: the `depth` parameter stands for Python's recursion limit; the model raises RecursionError when the count runs out, not at Python's own limit.
- LegacyFormat.Container.Fill: on an exception it states only the error, not the partly written container.
- LegacyFormat.Environments.Parse: on an exception it states only the error and the store reached, not that Python leaves the store as it was at that point (the same thing here, since the line's own change is not made).
- LineFormat.Environments.Parse: takes the error list by value and returns it; the Python caller's list object is not modelled as shared.
- End-to-end scenarios of `template_specialize/tests/test_main.py:97-146` and `:183-231`, and the legacy `test_asdict`, `test_parse_parent` and the two redefinition tests, are not restated as concrete lemmas. The general lemmas cover the rules they exercise.

## Findings

| source | as written | input that shows it | evidently intended | confidence | as-written member | corrected member |
|---|---|---|---|---|---|---|
| template_specialize/__init__.py:201 | `container in new_lists` compares lists with `==`, so a list equal to a list made during this call counts as new | child sets `b.0 = 1`; its parent sets `a.0 = 1` and `b.0 = 2`; the parent's `a` list `[1]` equals the child's `b` list, so `b` grows to `[1, 2]` | only a list created during this call is appended to, so a parent never extends a child's list | not executed | LegacyCases.EqualityExtendsChildList | LegacyProps.ParentsNeverExtend |
