/** The three line grammars of the line-format environment files, written
    out by hand over ASCII: a blank or comment line, an environment header
    `name:` or `name(p1, p2):`, and an indented assignment `key = value`.
    Each recogniser answers what Python's re.search gives for the
    corresponding anchored pattern: whether it matches and what its named
    groups hold. The current engine (template_specialize/environment.py)
    and the oldest one (template_specialize/__init__.py) differ only in the
    characters allowed in names and keys, so both are built from the same
    pieces here. */
module LineSyntax {
  import opened Text
  import opened Wrappers
  import opened Literals

  /** The length of the longest prefix of s whose characters are in the class. */
  function SpanLen(s: string, inClass: char -> bool): (n: nat)
    ensures n <= |s|
    ensures forall i :: 0 <= i < n ==> inClass(s[i])
    ensures n == |s| || !inClass(s[n])
  {
    if |s| == 0 || !inClass(s[0]) then 0 else 1 + SpanLen(s[1..], inClass)
  }

  /** `[A-Za-z_]\w*` */
  predicate IsIdent(s: string) { |s| > 0 && IsIdentStart(s[0]) && AllWord(s) }

  /** `.*$`: no line break, except one that ends the text. */
  predicate RestOfLine(s: string) {
    '\n' !in s || (s[|s| - 1] == '\n' && '\n' !in s[..|s| - 1])
  }

  /** `^\s*(?:#.*)?$` */
  predicate IsComment(line: string) {
    var t := LStrip(line);
    |t| == 0 || (t[0] == '#' && RestOfLine(t[1..]))
  }

  /** `\s*:\s*$` */
  predicate ColonEnd(s: string) {
    var t := LStrip(s);
    |t| > 0 && t[0] == ':' && AllSpace(t[1..])
  }

  function StripAll(parts: seq<string>): (r: seq<string>)
    ensures |r| == |parts| && forall i :: 0 <= i < |r| ==> r[i] == Strip(parts[i])
  {
    seq(|parts|, i requires 0 <= i < |parts| => Strip(parts[i]))
  }

  /** What follows the environment name in a header:
      `(?:\s*\(\s*P\s*\))?\s*:\s*$`. None when it does not match;
      Some(None) for a header without parentheses; Some(Some(names)) with
      the comma-separated pieces between the parentheses, each stripped of
      surrounding whitespace. Whether each piece is a valid name depends
      on the engine. */
  function HeaderTail(rest: string): Option<Option<seq<string>>> {
    var t := LStrip(rest);
    if ColonEnd(rest) then Some(None)
    else if |t| > 0 && t[0] == '(' then
      var u := t[1..];
      var j := IndexOf(u, ')');
      if j < |u| && ColonEnd(u[j + 1..]) then Some(Some(StripAll(Split(u[..j], ','))))
      else None
    else None
  }

  /** A matched header: its name and, when it has parentheses, the parent names. */
  datatype Header = Header(name: string, parents: Option<seq<string>>)

  /** The current engine's header pattern: names are `[A-Za-z_]\w*`. */
  function MatchHeader(line: string): (r: Option<Header>)
    ensures r.Some? ==> IsIdent(r.value.name)
    ensures r.Some? && r.value.parents.Some? ==>
      var ps := r.value.parents.value; |ps| > 0 && forall i :: 0 <= i < |ps| ==> IsIdent(ps[i])
  {
    var n := SpanLen(line, IsWord);
    HeaderOf(line[..n], line[n..])
  }

  /** The header made of the word run at the start of a line and what follows it. */
  function HeaderOf(name: string, rest: string): (r: Option<Header>)
    ensures r.Some? ==> r.value.name == name && IsIdent(name)
    ensures r.Some? && r.value.parents.Some? ==>
      var ps := r.value.parents.value; |ps| > 0 && forall i :: 0 <= i < |ps| ==> IsIdent(ps[i])
  {
    if !IsIdent(name) then None
    else
      match HeaderTail(rest)
      case None => None
      case Some(None) => Some(Header(name, None))
      case Some(Some(ps)) =>
        if forall i :: 0 <= i < |ps| ==> IsIdent(ps[i]) then Some(Header(name, Some(ps))) else None
  }

  /** A matched assignment: the text of its key and of its value. */
  datatype Assignment = Assignment(key: string, value: string)

  /** `"[^"]*"` */
  predicate IsQuoted(v: string) {
    |v| >= 2 && v[0] == '"' && v[|v| - 1] == '"' && '"' !in v[1..|v| - 1]
  }

  /** `\d+(?:\.\d*)?` */
  predicate IsNumberText(v: string) {
    var n := SpanLen(v, IsDigit);
    n > 0 && (n == |v| || (v[n] == '.' && AllDigits(v[n + 1..])))
  }

  /** The value group: `"[^"]*"|\d+(?:\.\d*)?|true|false`. */
  predicate IsValueText(v: string) {
    IsQuoted(v) || IsNumberText(v) || v == "true" || v == "false"
  }

  /** `^\s+(?P<key>K)\s*=\s*(?P<value>V)\s*$`, the characters a key may
      use and the key grammar K given by the engine. */
  function MatchAssignmentWith(line: string, keyChar: char -> bool, keyOk: string -> bool): (r: Option<Assignment>)
    ensures r.Some? ==> keyOk(r.value.key) && IsValueText(r.value.value)
  {
    if |line| == 0 || !IsSpace(line[0]) then None
    else
      var t := LStrip(line);
      var n := SpanLen(t, keyChar);
      AssignmentOf(t[..n], t[n..], keyOk)
  }

  /** The key run after the indentation and what follows it. */
  function AssignmentOf(key: string, rest: string, keyOk: string -> bool): (r: Option<Assignment>)
    ensures r.Some? ==> r.value.key == key && keyOk(key) && IsValueText(r.value.value)
  {
    var r := LStrip(rest);
    if !keyOk(key) || |r| == 0 || r[0] != '=' then None
    else
      var v := RStrip(LStrip(r[1..]));
      if IsValueText(v) then Some(Assignment(key, v)) else None
  }

  predicate IsKeyChar(c: char) { IsWord(c) || c == '.' }

  /** The current engine's key grammar `[A-Za-z_]\w*(?:\.[A-Za-z_]\w*|\.\d+)*`:
      a name, then names or digit runs, separated by dots. */
  predicate IsKeyText(k: string) {
    var ps := Split(k, '.');
    && (forall i :: 0 <= i < |k| ==> IsKeyChar(k[i]))
    && IsIdent(ps[0])
    && forall i :: 1 <= i < |ps| ==> IsIdent(ps[i]) || IsDigitRun(ps[i])
  }

  function MatchAssignment(line: string): (r: Option<Assignment>)
    ensures r.Some? ==> IsKeyText(r.value.key) && IsValueText(r.value.value)
  {
    MatchAssignmentWith(line, IsKeyChar, IsKeyText)
  }

  // ---------------------------------------------------------------------
  // What the grammars accept

  lemma SpanOf(a: string, b: string, inClass: char -> bool)
    requires forall i :: 0 <= i < |a| ==> inClass(a[i])
    requires |b| == 0 || !inClass(b[0])
    ensures SpanLen(a + b, inClass) == |a|
  {
    if |a| > 0 {
      assert (a + b)[1..] == a[1..] + b;
      SpanOf(a[1..], b, inClass);
    }
  }

  /** Blank lines and lines whose first non-blank character is '#' are comments. */
  lemma CommentLines(ws: string, text: string)
    requires AllSpace(ws) && '\n' !in text
    ensures IsComment(ws)
    ensures IsComment(ws + "#" + text)
  {
    LStripAfterSpace(ws, "");
    assert ws + "" == ws;
    LStripAfterSpace(ws, "#" + text);
    assert ws + "#" + text == ws + ("#" + text);
    assert ("#" + text)[1..] == text;
  }

  /** A header of the current grammar is recognised, with or without parents. */
  lemma HeaderRoundTrip(name: string, parents: seq<string>)
    requires IsIdent(name)
    requires |parents| > 0 && forall i :: 0 <= i < |parents| ==> IsIdent(parents[i])
    ensures MatchHeader(name + ":") == Some(Header(name, None))
    ensures MatchHeader(name + "(" + Join(parents, ',') + "):") == Some(Header(name, Some(parents)))
  {
    HeaderNameOnly(name);
    HeaderWithParents(name, parents);
  }

  lemma HeaderWithParents(name: string, parents: seq<string>)
    requires IsIdent(name)
    requires |parents| > 0 && forall i :: 0 <= i < |parents| ==> IsIdent(parents[i])
    ensures MatchHeader(name + "(" + Join(parents, ',') + "):") == Some(Header(name, Some(parents)))
  {
    var inner := Join(parents, ',');
    ParenTail(parents);
    HeaderParenSplit(name, inner);
    HeaderWith(name, "(" + inner + "):", parents);
  }

  lemma HeaderParenSplit(name: string, inner: string)
    requires IsIdent(name)
    ensures MatchHeader(name + "(" + inner + "):") == HeaderOf(name, "(" + inner + "):")
  {
    var line := name + "(" + inner + "):";
    var rest := "(" + inner + "):";
    assert line == name + rest;
    HeaderSplit(name, rest);
  }

  lemma HeaderNameOnly(name: string)
    requires IsIdent(name)
    ensures MatchHeader(name + ":") == Some(Header(name, None))
  {
    HeaderSplit(name, ":");
    HeaderOfColon(name);
  }

  lemma HeaderOfColon(name: string)
    requires IsIdent(name)
    ensures HeaderOf(name, ":") == Some(Header(name, None))
  {
    HeaderTailColon();
  }

  lemma HeaderTailColon()
    ensures HeaderTail(":") == Some(None)
  {
    ColonEndColon();
  }

  lemma HeaderWith(name: string, rest: string, parents: seq<string>)
    requires IsIdent(name) && |rest| > 0 && rest[0] == '('
    requires forall i :: 0 <= i < |parents| ==> IsIdent(parents[i])
    requires HeaderTail(rest) == Some(Some(parents))
    ensures HeaderOf(name, rest) == Some(Header(name, Some(parents)))
  {
  }

  lemma HeaderSplit(name: string, rest: string)
    requires IsIdent(name) && |rest| > 0 && !IsWord(rest[0])
    ensures MatchHeader(name + rest) == HeaderOf(name, rest)
  {
    SpanOf(name, rest, IsWord);
    assert (name + rest)[..|name|] == name;
    assert (name + rest)[|name|..] == rest;
  }

  lemma ColonEndColon()
    ensures ColonEnd(":")
  {
    assert LStrip(":") == ":";
    assert AllSpace(":"[1..]);
  }

  lemma ParenTail(parents: seq<string>)
    requires |parents| > 0 && forall i :: 0 <= i < |parents| ==> IsIdent(parents[i])
    ensures HeaderTail("(" + Join(parents, ',') + "):") == Some(Some(parents))
  {
    IdentsJoin(parents);
    ParenTailOf(Join(parents, ','));
    StripAllIdents(parents);
  }

  lemma IdentsJoin(parents: seq<string>)
    requires |parents| > 0 && forall i :: 0 <= i < |parents| ==> IsIdent(parents[i])
    ensures ')' !in Join(parents, ',')
    ensures Split(Join(parents, ','), ',') == parents
  {
    forall i | 0 <= i < |parents| ensures ')' !in parents[i] && ',' !in parents[i] {
      NoPunctuationInIdent(parents[i]);
    }
    JoinAvoids(parents, ',', ')');
    SplitJoin(parents, ',');
  }

  lemma StripAllIdents(parents: seq<string>)
    requires forall i :: 0 <= i < |parents| ==> IsIdent(parents[i])
    ensures StripAll(parents) == parents
  {
    forall i | 0 <= i < |parents| ensures Strip(parents[i]) == parents[i] {
      IdentStrip(parents[i]);
    }
  }

  lemma IdentStrip(s: string)
    requires IsIdent(s)
    ensures Strip(s) == s
  {
    assert IsWord(s[|s| - 1]);
    StripNoSpace(s);
  }

  lemma ParenTailOf(inner: string)
    requires ')' !in inner
    ensures HeaderTail("(" + inner + "):") == Some(Some(StripAll(Split(inner, ','))))
  {
    var rest := "(" + inner + "):";
    assert LStrip(rest) == rest;
    assert !ColonEnd(rest);
    var u := rest[1..];
    assert u == inner + "):";
    IndexAfter(inner, "):", ')');
    assert u[..|inner|] == inner;
    assert u[|inner| + 1..] == ":";
    ColonEndColon();
  }

  lemma NoPunctuationInIdent(s: string)
    requires IsIdent(s)
    ensures ')' !in s && ',' !in s && '.' !in s && '"' !in s
  {
    forall i | 0 <= i < |s| ensures s[i] != ')' && s[i] != ',' && s[i] != '.' && s[i] != '"' {
      assert IsWord(s[i]);
    }
  }

  lemma IndexAfter(a: string, b: string, c: char)
    requires c !in a && |b| > 0 && b[0] == c
    ensures IndexOf(a + b, c) == |a|
  {
    if |a| > 0 {
      assert (a + b)[1..] == a[1..] + b;
      IndexAfter(a[1..], b, c);
    }
  }

  /** An indented assignment of the current grammar is recognised, whatever
      blanks surround the '=' and end the line. */
  lemma AssignmentRoundTrip(indent: string, key: string, sp1: string, sp2: string, value: string, trail: string)
    requires |indent| > 0 && AllSpace(indent) && AllSpace(sp1) && AllSpace(sp2) && AllSpace(trail)
    requires IsKeyText(key) && IsValueText(value)
    ensures MatchAssignment(indent + key + sp1 + "=" + sp2 + value + trail) == Some(Assignment(key, value))
  {
    var rest := sp1 + "=" + sp2 + value + trail;
    var t := key + rest;
    assert indent + key + sp1 + "=" + sp2 + value + trail == indent + t;
    assert IsIdentStart(Split(key, '.')[0][0]);
    SplitHead(key, '.');
    LStripAfterSpace(indent, t);
    assert |rest| > 0 && !IsKeyChar(rest[0]) by {
      if |sp1| > 0 { assert rest[0] == sp1[0]; } else { assert rest[0] == '='; }
    }
    SpanOf(key, rest, IsKeyChar);
    assert t[..|key|] == key && t[|key|..] == rest;
    AssignmentTail(key, sp1, sp2, value, trail);
  }

  lemma AssignmentTail(key: string, sp1: string, sp2: string, value: string, trail: string)
    requires AllSpace(sp1) && AllSpace(sp2) && AllSpace(trail)
    requires IsKeyText(key) && IsValueText(value)
    ensures AssignmentOf(key, sp1 + "=" + sp2 + value + trail, IsKeyText) == Some(Assignment(key, value))
  {
    var after := sp2 + value + trail;
    assert sp1 + "=" + sp2 + value + trail == sp1 + ("=" + after);
    LStripAfterSpace(sp1, "=" + after);
    assert ("=" + after)[1..] == after;
    ValueEdges(value);
    assert after == sp2 + (value + trail);
    LStripAfterSpace(sp2, value + trail);
    RStripBeforeSpace(value, trail);
  }

  /** A value text neither starts nor ends with a blank. */
  lemma ValueEdges(v: string)
    requires IsValueText(v)
    ensures |v| > 0 && !IsSpace(v[0]) && !IsSpace(v[|v| - 1])
  {
    if IsNumberText(v) && !IsQuoted(v) {
      var n := SpanLen(v, IsDigit);
      assert IsDigit(v[0]);
      if n < |v| && n + 1 < |v| {
        assert v[|v| - 1] == v[n + 1..][|v| - n - 2];
      }
    }
  }

  /** The first character of a text is the first character of its first piece. */
  lemma SplitHead(s: string, sep: char)
    requires |Split(s, sep)[0]| > 0
    ensures |s| > 0 && s[0] == Split(s, sep)[0][0]
  {
  }

  /** Under the assignment grammar each key piece becomes one segment: the
      first is always a field name, and a later piece is an index exactly
      when it is a digit run. */
  lemma KeyTextSegments(k: string)
    requires IsKeyText(k)
    ensures var key := ParseKey(k); var ps := Split(k, '.');
      && |key| == |ps| && key[0] == Field(ps[0])
      && forall i :: 1 <= i < |key| ==>
           key[i] == (if IsDigitRun(ps[i]) then Index(DigitsValue(ps[i])) else Field(ps[i]))
  {
    var ps := Split(k, '.');
    KeyPartKinds(ps[0]);
    forall i | 1 <= i < |ps|
      ensures ParseKeyPart(ps[i]) == (if IsDigitRun(ps[i]) then Index(DigitsValue(ps[i])) else Field(ps[i]))
    {
      KeyPartKinds(ps[i]);
    }
  }

  /** The four literal forms of a value text parse to what they denote. */
  lemma ValueTextParses(v: string)
    requires IsValueText(v)
    ensures v == "true" ==> ParseValue(v) == Bool(true)
    ensures v == "false" ==> ParseValue(v) == Bool(false)
    ensures IsQuoted(v) ==> ParseValue(v) == Str(v[1..|v| - 1])
    ensures IsNumberText(v) && '.' !in v ==> ParseValue(v) == Int(DigitsValue(v))
    ensures IsNumberText(v) && '.' in v ==> ParseValue(v) == Float(v)
  {
    ParseValueForms(v);
    if IsNumberText(v) {
      var n := SpanLen(v, IsDigit);
      if n == |v| {
        assert v[..n] == v;
        assert AllDigits(v);
        assert '.' !in v by { forall i | 0 <= i < |v| ensures v[i] != '.' { assert IsDigit(v[i]); } }
      } else {
        assert AllDigits(v[..n]);
        assert IsPointAt(v, n);
        assert v[n] == '.';
      }
    }
  }

  /** The three line kinds never overlap, so the order in which the
      scanner tries them does not matter. */
  lemma LineKindsExclusive(line: string)
    ensures IsComment(line) ==> MatchHeader(line).None? && MatchAssignment(line).None?
    ensures MatchHeader(line).Some? ==> MatchAssignment(line).None?
  {
    if MatchHeader(line).Some? {
      var n := SpanLen(line, IsWord);
      assert line[..n][0] == line[0];
      assert !IsSpace(line[0]);
      assert LStrip(line) == line;
    }
    if MatchAssignment(line).Some? {
      var t := LStrip(line);
      var n := SpanLen(t, IsKeyChar);
      var key := t[..n];
      SplitHead(key, '.');
      assert t[0] == key[0];
      assert IsIdentStart(t[0]);
    }
  }
}
