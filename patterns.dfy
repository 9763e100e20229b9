/** The line and value patterns of the configuration language, written out as
    functions instead of regular expressions. Each function gives what
    Python's `re.match` (anchored at the start, not at the end) finds. */
module Patterns {
  import opened Strings

  /** The two binding operators: `:=` for a top-level assignment and `=>` for
      a dictionary entry. */
  const AssignOp: string := ":="
  const EntryOp: string := "=>"

  /** What `\s*(.+)` captures when it is matched at the front of `rest`.
      `\s*` is greedy, but gives characters back when `.+` (any character but
      a line feed) cannot start; the capture then runs up to the first line
      feed. */
  function CaptureValue(rest: string): (r: Option<string>)
    ensures r.Some? ==> |r.value| > 0 && NoNewline(r.value)
    ensures r.None? <==> forall i :: 0 <= i < |rest| ==> rest[i] == '\n'
  {
    var k := SpaceRun(rest);
    if k < |rest| then
      var v := TakeLine(rest[k..]);
      assert |v| > 0 by { assert rest[k..][0] == rest[k]; }
      Some(v)
    else
      match LastNonNewline(rest)
      case None => None
      case Some(j) => Some([rest[j]])
  }

  /** `re.match(r"([a-zA-Z][_a-zA-Z0-9]*)\s*OP\s*(.+)", line)` for a two-character
      operator `op`: the identifier and the captured value, if the line matches.
      The identifier and the spaces before the operator cannot backtrack
      (neither an identifier character nor a space can start the operator), so
      only the value capture needs `CaptureValue`. A trailing `;?` or `,?` in the
      pattern never changes the capture, because `(.+)` stops only at a line
      feed or at the end of the line. */
  function MatchBinding(line: string, op: string): (r: Option<(string, string)>)
    requires |op| == 2 && !IsSpace(op[0]) && !IsIdentChar(op[0])
    ensures r.Some? ==> IsIdentifier(r.value.0) && StartsWith(line, r.value.0)
    ensures r.Some? ==> |r.value.1| > 0 && NoNewline(r.value.1)
    ensures |line| == 0 || !IsLetter(line[0]) ==> r.None?
  {
    if |line| == 0 || !IsLetter(line[0]) then None
    else
      var n := 1 + IdentRun(line[1..]);
      var rest := line[n..];
      var after := rest[SpaceRun(rest)..];
      if !StartsWith(after, op) then None
      else
        match CaptureValue(after[|op|..])
        case None => None
        case Some(v) => Some((line[..n], v))
  }

  /** A line matches only if the operator occurs in it. */
  lemma MatchHasOperator(line: string, op: string)
    requires |op| == 2 && !IsSpace(op[0]) && !IsIdentChar(op[0])
    ensures MatchBinding(line, op).Some? ==> Contains(line, op)
  {
    if |line| > 0 && IsLetter(line[0]) {
      var n := 1 + IdentRun(line[1..]);
      var rest := line[n..];
      var m := n + SpaceRun(rest);
      var after := rest[SpaceRun(rest)..];
      assert after == line[m..];
      if StartsWith(after, op) {
        assert line[m..m + |op|] == after[..|op|];
        ContainsAt(line, op, m);
      }
    }
  }

  /** The assignment pattern `([a-zA-Z][_a-zA-Z0-9]*)\s*:=\s*(.+);?`. */
  function MatchAssignment(line: string): (r: Option<(string, string)>)
    ensures r.Some? ==> IsIdentifier(r.value.0) && StartsWith(line, r.value.0)
    ensures r.Some? ==> |r.value.1| > 0 && NoNewline(r.value.1)
  {
    MatchBinding(line, AssignOp)
  }

  /** The dictionary-entry pattern `([a-zA-Z][_a-zA-Z0-9]*)\s*=>\s*(.+),?`. */
  function MatchEntry(line: string): (r: Option<(string, string)>)
    ensures r.Some? ==> IsIdentifier(r.value.0) && StartsWith(line, r.value.0)
    ensures r.Some? ==> |r.value.1| > 0 && NoNewline(r.value.1)
  {
    MatchBinding(line, EntryOp)
  }

  /** The top-level guard: the stripped line ends with `;`, starts with `{` or
      contains `:=`. */
  predicate IsStatementStart(line: string) {
    EndsWith(line, ";") || StartsWith(line, "{") || Contains(line, AssignOp)
  }

  /** A stripped line that closes a dictionary. It starts with `}`, so neither
      pattern matches it: testing it before the entry pattern, as
      `parse_dictionary` does, changes nothing for the entries. */
  predicate IsTerminator(line: string)
    ensures IsTerminator(line) ==> MatchEntry(line).None? && MatchAssignment(line).None?
  {
    assert "}"[0] == '}' && "};"[0] == '}' && "},"[0] == '}';
    line == "}" || line == "};" || line == "},"
  }

  /** The top-level guard in terms of characters: the line ends with `;`,
      starts with `{`, or has `:` followed by `=` somewhere. */
  lemma StatementGuard(line: string)
    ensures IsStatementStart(line) <==>
      (|line| > 0 && (line[|line| - 1] == ';' || line[0] == '{'))
      || exists i :: 0 <= i < |line| - 1 && line[i] == ':' && line[i + 1] == '='
  {
    ContainsPair(line, ':', '=');
    assert AssignOp == [':', '='];
    if |line| > 0 {
      assert EndsWith(line, ";") <==> line[|line| - 1..] == [line[|line| - 1]] == ";";
      assert StartsWith(line, "{") <==> line[..1] == [line[0]] == "{";
    }
  }

  /** `re.match(r"^\d+$", v)` followed by `int(v)`. `$` also matches before a
      final line feed, which `int` ignores. */
  function IntegerLiteral(v: string): (r: Option<nat>)
    ensures r.Some? ==> |v| > 0 && IsDigit(v[0])
  {
    if |v| > 0 && AllDigits(v) then Some(DecimalValue(v))
    else if |v| > 1 && v[|v| - 1] == '\n' && AllDigits(v[..|v| - 1]) then
      Some(DecimalValue(v[..|v| - 1]))
    else None
  }

  /** `re.match(r"^\[\[.*\]\]$", v)` followed by `v[2:-2]`. `.*` does not cross
      a line feed, and `$` also matches before a final line feed (in which case
      `v[2:-2]` keeps the last `]`). */
  function TextLiteral(v: string): (r: Option<string>)
    ensures r.Some? ==> StartsWith(v, "[[") && |r.value| + 4 == |v|
  {
    if |v| >= 4 && v[0] == '[' && v[1] == '[' && v[|v| - 2] == ']' && v[|v| - 1] == ']'
      && (forall i :: 2 <= i < |v| - 2 ==> v[i] != '\n') then
      Some(v[2..|v| - 2])
    else if |v| >= 5 && v[0] == '[' && v[1] == '[' && v[|v| - 3] == ']' && v[|v| - 2] == ']'
      && v[|v| - 1] == '\n' && (forall i :: 2 <= i < |v| - 3 ==> v[i] != '\n') then
      Some(v[2..|v| - 2])
    else None
  }

  /** `v.startswith("|") and v.endswith("|")` followed by `v[1:-1]`; on the
      one-character text `|` the slice is empty. */
  function ReferenceName(v: string): (r: Option<string>)
    ensures r.Some? ==> |v| > 0 && v[0] == '|' && v[|v| - 1] == '|'
    ensures r.Some? && |v| >= 2 ==> v == "|" + r.value + "|"
  {
    if |v| > 0 && v[0] == '|' && v[|v| - 1] == '|' then
      Some(if |v| >= 2 then v[1..|v| - 1] else "")
    else None
  }

  // ----- Round trips: each pattern recognises the text it is meant for -----

  /** A run of identifier characters followed by a character that cannot
      extend it is measured exactly. */
  lemma {:induction false} IdentRunPrefix(chars: string, rest: string)
    requires forall i :: 0 <= i < |chars| ==> IsIdentChar(chars[i])
    requires |rest| > 0 ==> !IsIdentChar(rest[0])
    ensures IdentRun(chars + rest) == |chars|
  {
    if |chars| > 0 {
      assert (chars + rest)[1..] == chars[1..] + rest;
      IdentRunPrefix(chars[1..], rest);
    } else {
      assert chars + rest == rest;
    }
  }

  /** An identifier followed by a character that cannot extend it is read whole. */
  lemma IdentifierPrefix(name: string, rest: string)
    requires IsIdentifier(name)
    requires |rest| > 0 ==> !IsIdentChar(rest[0])
    ensures 1 + IdentRun((name + rest)[1..]) == |name|
  {
    assert (name + rest)[1..] == name[1..] + rest;
    IdentRunPrefix(name[1..], rest);
  }

  /** A run of spaces followed by a non-space is measured exactly. */
  lemma {:induction false} SpacesPrefix(spaces: string, rest: string)
    requires forall i :: 0 <= i < |spaces| ==> IsSpace(spaces[i])
    requires |rest| > 0 ==> !IsSpace(rest[0])
    ensures SpaceRun(spaces + rest) == |spaces|
  {
    if |spaces| > 0 {
      assert (spaces + rest)[1..] == spaces[1..] + rest;
      SpacesPrefix(spaces[1..], rest);
    } else {
      assert spaces + rest == rest;
    }
  }

  /** A line with no line feed is its own first line. */
  lemma TakeLineWhole(s: string)
    requires NoNewline(s)
    ensures TakeLine(s) == s
  {
    assert s[..|TakeLine(s)|] == TakeLine(s);
  }

  /** `\s*(.+)` captures a value that follows any run of spaces whole. */
  lemma CaptureValueOf(spaces: string, value: string)
    requires forall i :: 0 <= i < |spaces| ==> IsSpace(spaces[i])
    requires |value| > 0 && !IsSpace(value[0]) && NoNewline(value)
    ensures CaptureValue(spaces + value) == Some(value)
  {
    var r := spaces + value;
    SpacesPrefix(spaces, value);
    assert r[|spaces|..] == value;
    TakeLineWhole(value);
  }

  /** `name SP op SP value` is matched with exactly that name and value, for any
      runs of spaces around the operator, as long as the value does not start
      with a space and has no line feed. */
  lemma MatchBindingOf(name: string, sp1: string, op: string, sp2: string, value: string)
    requires |op| == 2 && !IsSpace(op[0]) && !IsIdentChar(op[0])
    requires IsIdentifier(name)
    requires forall i :: 0 <= i < |sp1| ==> IsSpace(sp1[i])
    requires forall i :: 0 <= i < |sp2| ==> IsSpace(sp2[i])
    requires |value| > 0 && !IsSpace(value[0]) && NoNewline(value)
    ensures MatchBinding(name + sp1 + op + sp2 + value, op) == Some((name, value))
  {
    var line := name + sp1 + op + sp2 + value;
    var opRest := op + (sp2 + value);
    var tail := sp1 + opRest;
    assert line == name + tail;
    assert |tail| > 0 && !IsIdentChar(tail[0]) by {
      if |sp1| > 0 { assert tail[0] == sp1[0]; } else { assert tail[0] == op[0]; }
    }
    IdentifierPrefix(name, tail);
    assert line[..|name|] == name;
    assert line[|name|..] == tail;
    assert opRest[0] == op[0];
    SpacesPrefix(sp1, opRest);
    assert tail[|sp1|..] == opRest;
    assert opRest[..|op|] == op;
    assert opRest[|op|..] == sp2 + value;
    CaptureValueOf(sp2, value);
  }

  /** Reading back the decimal text of a number gives that number. */
  lemma IntegerLiteralOf(n: nat)
    ensures IntegerLiteral(DecimalText(n)) == Some(n)
  {
    DecimalRoundTrip(n);
  }

  /** A text literal gives back its interior verbatim, spaces and commas included. */
  lemma TextLiteralOf(s: string)
    requires NoNewline(s)
    ensures TextLiteral("[[" + s + "]]") == Some(s)
  {
    var v := "[[" + s + "]]";
    assert v[..2] == "[[";
    assert v[|v| - 2..] == "]]";
    assert v[2..|v| - 2] == s;
  }

  /** A reference gives back the name between the bars. */
  lemma ReferenceNameOf(name: string)
    ensures ReferenceName("|" + name + "|") == Some(name)
  {
    var v := "|" + name + "|";
    assert v[..1] == "|";
    assert v[|v| - 1..] == "|";
    assert v[1..|v| - 1] == name;
  }

  /** The tests of `parse_value` exclude each other: a number starts with a
      digit, a text with `[`, a reference with `|`, and `{` is none of them.
      Their order therefore decides nothing. */
  lemma ValueTestsExclusive(v: string)
    ensures IntegerLiteral(v).Some? ==> TextLiteral(v).None? && ReferenceName(v).None? && Strip(v) != "{"
    ensures TextLiteral(v).Some? ==> ReferenceName(v).None? && Strip(v) != "{"
    ensures ReferenceName(v).Some? ==> Strip(v) != "{"
  {
    if |v| > 0 && !IsSpace(v[0]) && Strip(v) == "{" {
      assert SpaceRun(v) == 0;
      assert Strip(v)[0] == v[0];
    }
  }
}
