/** How the parser reads whole input lines: indentation is stripped, the
    top-level guard accepts assignment lines and rejects bare words, an
    assignment line yields its name and value text, a dictionary line its key
    and value text or the end of the dictionary. */
module LineReading {
  import opened Strings
  import opened Patterns
  import opened ConfigModel
  import opened ValueReading

  predicate AllSpaces(s: string) {
    forall i :: 0 <= i < |s| ==> IsSpace(s[i])
  }

  /** Neither end of `s` is whitespace. */
  predicate Trimmed(s: string) {
    |s| > 0 ==> !IsSpace(s[0]) && !IsSpace(s[|s| - 1])
  }

  /** Stripping removes the indentation in front of a trimmed line. */
  lemma StripIndent(spaces: string, core: string)
    requires AllSpaces(spaces) && Trimmed(core)
    ensures Strip(spaces + core) == core
  {
    var s := spaces + core;
    if |core| > 0 {
      SpacesPrefix(spaces, core);
      assert s[|spaces|..] == core;
    } else {
      assert s == spaces;
      assert SpaceRun(s) == |s|;
    }
  }

  /** Everything the parser makes of an indented line is what it makes of the
      line without its indentation. */
  lemma ViewIndent(spaces: string, core: string)
    requires AllSpaces(spaces) && Trimmed(core)
    ensures ViewOf(spaces + core) == ViewOf(core)
  {
    StripIndent(spaces, core);
    StripUnchanged(core);
    EntryIndent(spaces, core);
    assert Strip(spaces + core) == Strip(core);
  }

  /** A dictionary line reads the same with or without its indentation. */
  lemma EntryIndent(spaces: string, core: string)
    requires AllSpaces(spaces) && Trimmed(core)
    ensures ReadEntry(spaces + core) == ReadEntry(core)
  {
    StripIndent(spaces, core);
    StripUnchanged(core);
  }

  /** A string without `:` does not contain `:=`. */
  lemma {:induction false} NoColon(s: string)
    requires forall i :: 0 <= i < |s| ==> s[i] != ':'
    ensures !Contains(s, AssignOp)
  {
    if |s| >= 2 {
      assert s[..2][0] == s[0];
    }
    if |s| > 0 {
      NoColon(s[1..]);
    }
  }

  /** A bare word fails the top-level guard, so `parse_blocks` reports
      `Unexpected syntax` on it. */
  lemma WordNotStatement(w: string)
    requires IsIdentifier(w)
    ensures !IsStatementStart(w)
  {
    forall i | 0 <= i < |w| ensures w[i] != ':' {
      if i > 0 {
        assert IsIdentChar(w[i]);
      }
    }
    NoColon(w);
    assert w[..1][0] == w[0];
    assert w[|w| - 1..][0] == w[|w| - 1];
    if |w| > 1 {
      assert IsIdentChar(w[|w| - 1]);
    }
  }

  /** The separator ` OP ` around a binding operator, with one space on each
      side as the examples of the language write it. */
  function Spaced(op: string): string {
    " " + op + " "
  }

  /** The assignment pattern captures exactly the name and the value text
      of a line `name := value`. */
  lemma AssignmentMatch(name: string, value: string)
    requires IsIdentifier(name) && |value| > 0 && !IsSpace(value[0]) && NoNewline(value)
    ensures MatchAssignment(name + Spaced(AssignOp) + value) == Some((name, value))
  {
    assert name + Spaced(AssignOp) + value == name + " " + AssignOp + " " + value;
    MatchBindingOf(name, " ", AssignOp, " ", value);
  }

  /** A line `name := value` is its own stripped text and passes the
      top-level guard. */
  lemma AssignmentGuard(name: string, value: string)
    requires IsIdentifier(name) && |value| > 0 && Trimmed(value)
    ensures var line := name + Spaced(AssignOp) + value;
      Strip(line) == line && IsStatementStart(line)
  {
    var line := name + Spaced(AssignOp) + value;
    assert line[0] == name[0] && line[|line| - 1] == value[|value| - 1];
    StripUnchanged(line);
    assert line[|name| + 1..|name| + 3] == AssignOp;
    ContainsAt(line, AssignOp, |name| + 1);
  }

  /** A line `name := value`: what `parse_assignment` is handed and what its
      pattern captures. */
  lemma AssignmentLine(name: string, value: string)
    requires IsIdentifier(name) && |value| > 0 && Trimmed(value) && NoNewline(value)
    ensures var line := name + Spaced(AssignOp) + value;
      Strip(line) == line && IsStatementStart(line)
      && MatchAssignment(line) == Some((name, value))
  {
    AssignmentMatch(name, value);
    AssignmentGuard(name, value);
  }

  /** `name := {` opens a dictionary for the constant `name`. */
  lemma OpenLine(name: string)
    requires IsIdentifier(name)
    ensures var line := name + Spaced(AssignOp) + "{";
      ViewOf(line).statement && ViewOf(line).assignment == AssignOpen(name)
  {
    AssignmentLine(name, "{");
  }

  /** A stripped value text that is `|name|` makes the line a copy of the
      constant `name`. */
  lemma ReadCopy(line: string, name: string, value: string, other: string)
    requires MatchAssignment(line) == Some((name, value)) && Strip(value) == value
    requires ReferenceName(value) == Some(other) && value != "{"
    ensures ReadAssignment(line) == AssignRef(name, other)
  {
  }

  /** `name := |other|` copies the constant `other`. */
  lemma CopyLine(name: string, other: string)
    requires IsIdentifier(name) && NoNewline(other)
    ensures var line := name + Spaced(AssignOp) + ("|" + other + "|");
      ViewOf(line).statement && ViewOf(line).assignment == AssignRef(name, other)
  {
    var value := "|" + other + "|";
    assert NoNewline(value) by {
      forall i | 0 <= i < |value| ensures value[i] != '\n' {
        if 0 < i < |value| - 1 {
          assert value[i] == other[i - 1];
        }
      }
    }
    assert value[0] == '|' && value[|value| - 1] == '|';
    var line := name + Spaced(AssignOp) + value;
    AssignmentLine(name, value);
    StripUnchanged(value);
    ReferenceNameOf(other);
    assert value != "{" by {
      assert |value| >= 2;
    }
    ReadCopy(line, name, value, other);
  }

  /** Any other value text is handed to `parse_value` whole, with its
      trailing `;`. */
  lemma ValueLine(name: string, value: string)
    requires IsIdentifier(name) && |value| > 0 && Trimmed(value) && NoNewline(value)
    requires value != "{" && ReferenceName(value).None?
    ensures var line := name + Spaced(AssignOp) + value;
      ViewOf(line).statement && ViewOf(line).assignment == AssignValue(name, value, ReadValue(value))
  {
    AssignmentLine(name, value);
    StripUnchanged(value);
  }

  /** The entry pattern captures exactly the key and the value text of a
      line `key => value`. */
  lemma EntryMatch(key: string, raw: string)
    requires IsIdentifier(key) && |raw| > 0 && !IsSpace(raw[0]) && NoNewline(raw)
    ensures MatchEntry(key + Spaced(EntryOp) + raw) == Some((key, raw))
  {
    assert key + Spaced(EntryOp) + raw == key + " " + EntryOp + " " + raw;
    MatchBindingOf(key, " ", EntryOp, " ", raw);
  }

  /** A trimmed line that starts with a letter does not close a dictionary. */
  lemma NotTerminator(line: string)
    requires |line| > 0 && IsLetter(line[0])
    ensures !IsTerminator(line)
  {
    assert "}"[0] == '}' && "};"[0] == '}' && "},"[0] == '}';
  }

  /** A stripped line that is not a terminator and matches the entry
      pattern is an entry; its value text loses trailing commas and
      surrounding whitespace. */
  lemma ReadEntryOf(line: string, key: string, raw: string)
    requires Strip(line) == line && !IsTerminator(line) && MatchEntry(line) == Some((key, raw))
    ensures ReadEntry(line) == Entry(key, Strip(TrimEnd(raw, {','})), ReadValue(Strip(TrimEnd(raw, {','}))))
  {
  }

  /** A value followed by commas is the value once the commas are gone. */
  lemma ValueWithCommas(value: string, commas: string)
    requires |value| > 0 && Trimmed(value) && NoNewline(value)
    requires value[|value| - 1] != ',' && Repeats(commas, ',')
    ensures var raw := value + commas;
      NoNewline(raw) && !IsSpace(raw[0]) && !IsSpace(raw[|raw| - 1])
      && Strip(TrimEnd(raw, {','})) == value
  {
    var raw := value + commas;
    forall i | 0 <= i < |raw| ensures raw[i] != '\n' {
      if i >= |value| {
        assert raw[i] == commas[i - |value|];
      }
    }
    if |commas| > 0 {
      assert raw[|raw| - 1] == commas[|commas| - 1];
    }
    TrimEndSuffix(value, commas, {','});
    StripUnchanged(value);
  }

  /** A line `key => raw` is its own stripped text and does not close a
      dictionary. */
  lemma EntryTrimmed(key: string, raw: string)
    requires IsIdentifier(key) && |raw| > 0 && !IsSpace(raw[|raw| - 1])
    ensures var line := key + Spaced(EntryOp) + raw;
      Strip(line) == line && !IsTerminator(line)
  {
    var line := key + Spaced(EntryOp) + raw;
    assert line[0] == key[0] && line[|line| - 1] == raw[|raw| - 1];
    StripUnchanged(line);
    NotTerminator(line);
  }

  /** A dictionary line `key => value` followed by commas is an entry with
      that key, whose value text has the commas removed. */
  lemma EntryLineOf(key: string, value: string, commas: string)
    requires IsIdentifier(key) && |value| > 0 && Trimmed(value) && NoNewline(value)
    requires value[|value| - 1] != ',' && Repeats(commas, ',')
    ensures ReadEntry(key + Spaced(EntryOp) + (value + commas)) == Entry(key, value, ReadValue(value))
  {
    var raw := value + commas;
    ValueWithCommas(value, commas);
    EntryMatch(key, raw);
    EntryTrimmed(key, raw);
    ReadEntryOf(key + Spaced(EntryOp) + raw, key, raw);
  }

  /** The decimal text of a number, as a value text. */
  lemma NumberText(n: nat)
    ensures var digits := DecimalText(n);
      NoNewline(digits) && Trimmed(digits) && digits[|digits| - 1] != ','
      && ReadValue(digits) == Number(n)
  {
    var digits := DecimalText(n);
    assert IsDigit(digits[0]) && IsDigit(digits[|digits| - 1]);
    assert Repeats("", ';');
    ReadNumber(n, "");
    assert digits + "" == digits;
  }

  /** `key => N` with trailing commas stores the integer `N`. */
  lemma NumberEntry(key: string, n: nat, commas: string)
    requires IsIdentifier(key) && Repeats(commas, ',')
    ensures ReadEntry(key + Spaced(EntryOp) + (DecimalText(n) + commas)) == Entry(key, DecimalText(n), Number(n))
  {
    NumberText(n);
    EntryLineOf(key, DecimalText(n), commas);
  }

  /** `|name|` between bars, as a value text. */
  lemma ReferenceText(name: string)
    requires NoNewline(name)
    ensures var value := "|" + name + "|";
      NoNewline(value) && Trimmed(value) && value[|value| - 1] != ','
      && ReadValue(value) == Reference(name)
  {
    var value := "|" + name + "|";
    forall i | 0 <= i < |value| ensures value[i] != '\n' {
      if 0 < i < |value| - 1 {
        assert value[i] == name[i - 1];
      }
    }
    assert value[0] == '|' && value[|value| - 1] == '|';
    assert Repeats("", ';');
    ReadReference(name, "");
    assert value + "" == value;
  }

  /** `key => |name|` with trailing commas refers to the constant `name`. */
  lemma ReferenceEntry(key: string, name: string, commas: string)
    requires IsIdentifier(key) && NoNewline(name) && Repeats(commas, ',')
    ensures ReadEntry(key + Spaced(EntryOp) + (("|" + name + "|") + commas))
      == Entry(key, "|" + name + "|", Reference(name))
  {
    ReferenceText(name);
    EntryLineOf(key, "|" + name + "|", commas);
  }

  /** `[[s]]` as a value text. */
  lemma LiteralText(s: string)
    requires NoNewline(s)
    ensures var value := "[[" + s + "]]";
      NoNewline(value) && Trimmed(value) && value[|value| - 1] != ','
      && ReadValue(value) == Literal(s)
  {
    var value := "[[" + s + "]]";
    forall i | 0 <= i < |value| ensures value[i] != '\n' {
      if 2 <= i < |value| - 2 {
        assert value[i] == s[i - 2];
      }
    }
    assert value[0] == '[' && value[|value| - 1] == ']';
    assert Repeats("", ';') && value + "" == value;
    ReadText(s, "");
  }

  /** `key => [[s]],` stores the text `s`. */
  lemma LiteralEntry(key: string, s: string, commas: string)
    requires IsIdentifier(key) && NoNewline(s) && Repeats(commas, ',')
    ensures ReadEntry(key + Spaced(EntryOp) + (("[[" + s + "]]") + commas))
      == Entry(key, "[[" + s + "]]", Literal(s))
  {
    LiteralText(s);
    EntryLineOf(key, "[[" + s + "]]", commas);
  }

  /** `key => {` opens a nested dictionary under `key`. */
  lemma OpenEntry(key: string)
    requires IsIdentifier(key)
    ensures ReadEntry(key + Spaced(EntryOp) + "{") == Entry(key, "{", Opener)
  {
    assert Repeats("", ',') && Repeats("", ';') && "{" + "" == "{";
    assert NoNewline("{") && Trimmed("{");
    ReadOpener("");
    EntryLineOf(key, "{", "");
  }

  /** Every line the assignment pattern accepts passes the top-level guard:
      the guard turns away only lines that `parse_assignment` would reject
      as well. */
  lemma AssignmentPassesGuard(raw: string)
    ensures !ViewOf(raw).assignment.BadAssignment? ==> ViewOf(raw).statement
  {
    MatchHasOperator(Strip(raw), AssignOp);
  }

  /** `}`, `};` and `},` close a dictionary, however they are indented. */
  lemma ClosingLine(spaces: string, t: string)
    requires AllSpaces(spaces) && (t == "}" || t == "};" || t == "},")
    ensures ReadEntry(spaces + t) == Closing
  {
    assert t[0] == '}' && t[|t| - 1] != ' ';
    StripIndent(spaces, t);
  }
}
