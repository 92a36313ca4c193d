/** The line grammars of the oldest engine (template_specialize/__init__.py).
    The comment grammar and the value literals are those of the current
    engine; the header allows any `\w+` as a name, and the key grammar is
    `[A-Za-z0-9_-]+(?:\.[A-Za-z0-9_-]+)*`. Lines are matched as they are,
    without stripping their end first. */
module LegacySyntax {
  import opened Text
  import opened Wrappers
  import opened Literals
  import opened LineSyntax

  /** `\w+` */
  predicate IsWordRun(s: string) { |s| > 0 && AllWord(s) }

  /** The pieces of `\w+(?:\s*,\s*\w*)*` once split at the commas and
      stripped: a word first, then words that may be empty. */
  predicate IsLegacyParents(ps: seq<string>) {
    |ps| > 0 && IsWordRun(ps[0]) && forall i :: 1 <= i < |ps| ==> AllWord(ps[i])
  }

  /** `^(?P<env>\w+)(?:\s*\(\s*(?P<parents>\w+(?:\s*,\s*\w*)*)\s*\))?\s*:\s*$`,
      with the parents split at commas and stripped. */
  function MatchLegacyHeader(line: string): (r: Option<Header>)
    ensures r.Some? ==> IsWordRun(r.value.name) && r.value.name <= line
    ensures r.Some? && r.value.parents.Some? ==> IsLegacyParents(r.value.parents.value)
  {
    var n := SpanLen(line, IsWord);
    LegacyHeaderOf(line[..n], line[n..])
  }

  /** The header made of the word run at the start of a line and what follows it. */
  function LegacyHeaderOf(name: string, rest: string): (r: Option<Header>)
    ensures r.Some? ==> r.value.name == name && IsWordRun(name)
    ensures r.Some? && r.value.parents.Some? ==> IsLegacyParents(r.value.parents.value)
  {
    if !IsWordRun(name) then None
    else
      match HeaderTail(rest)
      case None => None
      case Some(None) => Some(Header(name, None))
      case Some(Some(ps)) => if IsLegacyParents(ps) then Some(Header(name, Some(ps))) else None
  }

  /** The class `[A-Za-z0-9_-]`, or the dot between key parts. */
  predicate IsLegacyKeyChar(c: char) { IsWord(c) || c == '-' || c == '.' }

  /** `[A-Za-z0-9_-]+(?:\.[A-Za-z0-9_-]+)*`: key characters, and no empty
      piece between the dots. */
  predicate IsLegacyKeyText(k: string) {
    var ps := Split(k, '.');
    && (forall i :: 0 <= i < |k| ==> IsLegacyKeyChar(k[i]))
    && forall i :: 0 <= i < |ps| ==> |ps[i]| > 0
  }

  /** `^\s+(?P<key>K)\s*=\s*(?P<value>V)\s*$` with the legacy key grammar K. */
  function MatchLegacyAssignment(line: string): (r: Option<Assignment>)
    ensures r.Some? ==> IsLegacyKeyText(r.value.key) && IsValueText(r.value.value)
  {
    MatchAssignmentWith(line, IsLegacyKeyChar, IsLegacyKeyText)
  }

  // ---------------------------------------------------------------------
  // What the grammars accept

  /** A header is recognised, with or without parents, and its name may
      start with a digit. */
  lemma LegacyHeaderRoundTrip(name: string, parents: seq<string>)
    requires IsWordRun(name) && IsLegacyParents(parents)
    ensures MatchLegacyHeader(name + ":") == Some(Header(name, None))
    ensures MatchLegacyHeader(name + "(" + Join(parents, ',') + "):") == Some(Header(name, Some(parents)))
  {
    LegacyHeaderSplit(name, ":");
    HeaderTailColon();
    LegacyParentsHeader(name, parents);
  }

  lemma LegacyParentsHeader(name: string, parents: seq<string>)
    requires IsWordRun(name) && IsLegacyParents(parents)
    ensures MatchLegacyHeader(name + "(" + Join(parents, ',') + "):") == Some(Header(name, Some(parents)))
  {
    var rest := "(" + Join(parents, ',') + "):";
    assert name + "(" + Join(parents, ',') + "):" == name + rest;
    LegacyHeaderSplit(name, rest);
    ParentsTail(parents);
    LegacyHeaderWith(name, rest, parents);
  }

  lemma ParentsTail(parents: seq<string>)
    requires IsLegacyParents(parents)
    ensures HeaderTail("(" + Join(parents, ',') + "):") == Some(Some(parents))
  {
    WordsJoin(parents);
    ParenTailOf(Join(parents, ','));
    StripAllWords(parents);
  }

  lemma LegacyHeaderWith(name: string, rest: string, parents: seq<string>)
    requires IsWordRun(name) && IsLegacyParents(parents)
    requires HeaderTail(rest) == Some(Some(parents))
    ensures LegacyHeaderOf(name, rest) == Some(Header(name, Some(parents)))
  {
  }

  lemma LegacyHeaderSplit(name: string, rest: string)
    requires IsWordRun(name) && |rest| > 0 && !IsWord(rest[0])
    ensures MatchLegacyHeader(name + rest) == LegacyHeaderOf(name, rest)
  {
    SpanOf(name, rest, IsWord);
    assert (name + rest)[..|name|] == name;
    assert (name + rest)[|name|..] == rest;
  }

  lemma WordsJoin(parts: seq<string>)
    requires |parts| > 0 && forall i :: 0 <= i < |parts| ==> AllWord(parts[i])
    ensures ')' !in Join(parts, ',')
    ensures Split(Join(parts, ','), ',') == parts
  {
    forall i | 0 <= i < |parts| ensures ')' !in parts[i] && ',' !in parts[i] {
      NoPunctuationInWords(parts[i]);
    }
    JoinAvoids(parts, ',', ')');
    SplitJoin(parts, ',');
  }

  lemma StripAllWords(parts: seq<string>)
    requires forall i :: 0 <= i < |parts| ==> AllWord(parts[i])
    ensures StripAll(parts) == parts
  {
    forall i | 0 <= i < |parts| ensures Strip(parts[i]) == parts[i] {
      var s := parts[i];
      if |s| > 0 { assert IsWord(s[0]) && IsWord(s[|s| - 1]); }
      StripNoSpace(s);
    }
  }

  lemma NoPunctuationInWords(s: string)
    requires AllWord(s)
    ensures ')' !in s && ',' !in s && '.' !in s && '"' !in s && '=' !in s
  {
    forall i | 0 <= i < |s| ensures s[i] != ')' && s[i] != ',' && s[i] != '.' && s[i] != '"' && s[i] != '=' {
      assert IsWord(s[i]);
    }
  }

  /** A piece that is not a word once stripped, such as `a b` or `a-b`,
      makes the header fail. */
  lemma HeaderNeedsWords(name: string, parents: seq<string>, j: nat)
    requires IsWordRun(name) && |parents| > 0 && j < |parents|
    requires forall i :: 0 <= i < |parents| ==> ')' !in parents[i] && ',' !in parents[i]
    requires !AllWord(Strip(parents[j]))
    ensures MatchLegacyHeader(name + "(" + Join(parents, ',') + "):").None?
  {
    JoinAvoids(parents, ',', ')');
    SplitJoin(parents, ',');
    ParenRejects(name, Join(parents, ','), j);
  }

  lemma ParenRejects(name: string, inner: string, j: nat)
    requires IsWordRun(name) && ')' !in inner
    requires j < |Split(inner, ',')| && !AllWord(Strip(Split(inner, ',')[j]))
    ensures MatchLegacyHeader(name + "(" + inner + "):").None?
  {
    var rest := "(" + inner + "):";
    assert name + "(" + inner + "):" == name + rest;
    LegacyHeaderSplit(name, rest);
    ParenTailOf(inner);
    var ps := StripAll(Split(inner, ','));
    assert !IsLegacyParents(ps) by {
      if j == 0 { assert !IsWordRun(ps[0]); } else { assert !AllWord(ps[j]); }
    }
  }

  /** An indented assignment with a legacy key is recognised, whatever
      blanks surround the '=' and end the line. */
  lemma LegacyAssignmentRoundTrip(indent: string, key: string, sp1: string, sp2: string, value: string, trail: string)
    requires |indent| > 0 && AllSpace(indent) && AllSpace(sp1) && AllSpace(sp2) && AllSpace(trail)
    requires IsLegacyKeyText(key) && IsValueText(value)
    ensures MatchLegacyAssignment(indent + key + sp1 + "=" + sp2 + value + trail) == Some(Assignment(key, value))
  {
    var rest := sp1 + "=" + sp2 + value + trail;
    var t := key + rest;
    assert indent + key + sp1 + "=" + sp2 + value + trail == indent + t;
    SplitHead(key, '.');
    assert IsLegacyKeyChar(key[0]);
    LStripAfterSpace(indent, t);
    assert |rest| > 0 && !IsLegacyKeyChar(rest[0]) by {
      if |sp1| > 0 { assert rest[0] == sp1[0]; } else { assert rest[0] == '='; }
    }
    SpanOf(key, rest, IsLegacyKeyChar);
    assert t[..|key|] == key && t[|key|..] == rest;
    LegacyAssignmentTail(key, sp1, sp2, value, trail);
  }

  lemma LegacyAssignmentTail(key: string, sp1: string, sp2: string, value: string, trail: string)
    requires AllSpace(sp1) && AllSpace(sp2) && AllSpace(trail)
    requires IsLegacyKeyText(key) && IsValueText(value)
    ensures AssignmentOf(key, sp1 + "=" + sp2 + value + trail, IsLegacyKeyText) == Some(Assignment(key, value))
  {
    var after := sp2 + value + trail;
    assert sp1 + "=" + sp2 + value + trail == sp1 + ("=" + after);
    LStripAfterSpace(sp1, "=" + after);
    assert ("=" + after)[1..] == after;
    ValueEdges(value);
    assert after == sp2 + (value + trail);
    LStripAfterSpace(sp2, value + trail);
    RStripBeforeSpace(value, trail);
  }

  /** Neither a header nor an assignment is a comment line, and no line is
      both a header and an assignment. */
  lemma LegacyLineKindsExclusive(line: string)
    ensures IsComment(line) ==> MatchLegacyHeader(line).None? && MatchLegacyAssignment(line).None?
    ensures MatchLegacyHeader(line).Some? ==> MatchLegacyAssignment(line).None?
  {
    if MatchLegacyHeader(line).Some? {
      var n := SpanLen(line, IsWord);
      assert line[..n][0] == line[0];
      assert !IsSpace(line[0]);
      assert LStrip(line) == line;
    }
    if MatchLegacyAssignment(line).Some? {
      var t := LStrip(line);
      var n := SpanLen(t, IsLegacyKeyChar);
      var key := t[..n];
      SplitHead(key, '.');
      assert t[0] == key[0];
      assert IsLegacyKeyChar(t[0]);
    }
  }
}
