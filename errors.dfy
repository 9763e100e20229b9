/** Each kind of `SyntaxError` stops the parse: whatever follows the line
    that raises it, the document fails with that error. Also the one case the
    parser lets through silently, a dictionary whose closing line is missing. */
module ErrorProperties {
  import opened Strings
  import opened Patterns
  import opened ConfigModel
  import opened ConfigSteps
  import opened ValueReading
  import opened LineReading

  /** The view of the first line of a document. */
  lemma FirstView(line: string, rest: seq<string>)
    ensures |Views([line] + rest)| > 0 && Views([line] + rest)[0] == ViewOf(line)
  {
    assert ([line] + rest)[0] == line;
  }

  /** The view of the second line of a document. */
  lemma SecondView(first: string, line: string, rest: seq<string>)
    ensures |Views([first, line] + rest)| > 1 && Views([first, line] + rest)[1] == ViewOf(line)
  {
    assert ([first, line] + rest)[1] == line;
  }

  /** A bare word is its own stripped text and fails the top-level guard. */
  lemma BareWordView(w: string)
    requires IsIdentifier(w)
    ensures ViewOf(w).line == w && !ViewOf(w).statement
  {
    assert !IsSpace(w[|w| - 1]) by {
      if |w| > 1 {
        assert IsIdentChar(w[|w| - 1]);
      }
    }
    StripUnchanged(w);
    WordNotStatement(w);
  }

  /** A bare word at the top level: `Unexpected syntax`. */
  lemma BareWordRejected(w: string, rest: seq<string>)
    requires IsIdentifier(w)
    ensures ParseDocument([w] + rest) == Err(UnexpectedSyntax(w))
  {
    var ls := Views([w] + rest);
    FirstView(w, rest);
    BareWordView(w);
    BlocksFromBadLine(ls, map[], 0, []);
  }

  /** `word;` passes the top-level guard, through its `;`, but has no `:=`. */
  lemma WordStatement(w: string)
    requires IsIdentifier(w)
    ensures var line := w + ";";
      ViewOf(line).line == line && ViewOf(line).statement && ViewOf(line).assignment == BadAssignment
  {
    var line := w + ";";
    assert line[0] == w[0] && line[|line| - 1] == ';';
    StripUnchanged(line);
    assert line[|line| - 1..] == ";";
    IdentifierPrefix(w, ";");
    assert line[|w|..] == ";";
  }

  /** A first line that passes the guard but is no assignment. */
  lemma BadFirstAssignment(ls: seq<View>)
    requires |ls| > 0 && ls[0].statement && ls[0].assignment == BadAssignment
    ensures BlocksFrom(ls, map[], 0, []) == Err(InvalidAssignment(ls[0].line))
  {
    BlocksFromBadAssignment(ls, map[], 0, []);
  }

  /** `word;` at the top level: `Invalid assignment syntax`. */
  lemma NoAssignmentRejected(w: string, rest: seq<string>)
    requires IsIdentifier(w)
    ensures ParseDocument([w + ";"] + rest) == Err(InvalidAssignment(w + ";"))
  {
    WordStatement(w);
    FirstView(w + ";", rest);
    BadFirstAssignment(Views([w + ";"] + rest));
  }

  /** `name := |other|` as the first line: nothing is defined yet, so
      `Undefined constant: other`. */
  lemma UndefinedCopyRejected(name: string, other: string, rest: seq<string>)
    requires IsIdentifier(name) && NoNewline(other)
    ensures ParseDocument([name + Spaced(AssignOp) + ("|" + other + "|")] + rest)
      == Err(UndefinedConstant(other))
  {
    var line := name + Spaced(AssignOp) + ("|" + other + "|");
    var ls := Views([line] + rest);
    FirstView(line, rest);
    CopyLine(name, other);
    AssignRefStep(ls, map[], 0);
    BlocksFromBadAssignment(ls, map[], 0, []);
  }

  /** The first line assigns a value the parser rejects. */
  lemma InvalidFirstValue(ls: seq<View>, name: string, text: string, w: string)
    requires |ls| > 0 && ls[0].statement && ls[0].assignment == AssignValue(name, text, Invalid(w))
    ensures BlocksFrom(ls, map[], 0, []) == Err(InvalidValue(w))
  {
    AssignValueStep(ls, map[], 0, Err(InvalidValue(w)));
    BlocksFromBadAssignment(ls, map[], 0, []);
  }

  /** A word followed by `;` is a value text the parser rejects. */
  lemma WordValue(w: string)
    requires IsIdentifier(w)
    ensures var value := w + ";";
      |value| > 0 && NoNewline(value) && Trimmed(value) && value != "{" && ReferenceName(value).None?
      && ReadValue(value) == Invalid(w)
  {
    var value := w + ";";
    assert NoNewline(value) && Trimmed(value) by {
      forall i | 0 <= i < |value| ensures value[i] != '\n' {
        if 0 < i < |w| {
          assert IsIdentChar(w[i]);
        }
      }
      assert value[0] == w[0];
    }
    assert value != "{" && ReferenceName(value).None? by {
      assert value[|value| - 1] == ';';
    }
    assert w[|w| - 1] != ';' by {
      if |w| > 1 {
        assert IsIdentChar(w[|w| - 1]);
      }
    }
    assert Repeats(";", ';');
    ReadWord(w, ";");
  }

  /** `name := word;` reads as an assignment of a value the parser rejects. */
  lemma WordAssignment(name: string, w: string)
    requires IsIdentifier(name) && IsIdentifier(w)
    ensures var line := name + Spaced(AssignOp) + (w + ";");
      ViewOf(line).statement && ViewOf(line).assignment == AssignValue(name, w + ";", Invalid(w))
  {
    WordValue(w);
    ValueLine(name, w + ";");
  }

  /** `name := word;` where the word is none of the value forms:
      `Invalid value: word`, without the `;`. */
  lemma InvalidValueRejected(name: string, w: string, rest: seq<string>)
    requires IsIdentifier(name) && IsIdentifier(w)
    ensures ParseDocument([name + Spaced(AssignOp) + (w + ";")] + rest) == Err(InvalidValue(w))
  {
    var line := name + Spaced(AssignOp) + (w + ";");
    WordAssignment(name, w);
    FirstView(line, rest);
    InvalidFirstValue(Views([line] + rest), name, w + ";", w);
  }

  /** A bare word is not a dictionary line. */
  lemma WordNotEntry(w: string)
    requires IsIdentifier(w)
    ensures ReadEntry(w) == BadEntry(w)
  {
    assert !IsSpace(w[|w| - 1]) by {
      if |w| > 1 {
        assert IsIdentChar(w[|w| - 1]);
      }
    }
    StripUnchanged(w);
    NotTerminator(w);
    IdentifierPrefix(w, "");
    assert w + "" == w;
  }

  /** A bare word inside a top-level dictionary: `Invalid dictionary syntax`. */
  lemma BadEntryRejected(name: string, w: string, rest: seq<string>)
    requires IsIdentifier(name) && IsIdentifier(w)
    ensures ParseDocument([name + Spaced(AssignOp) + "{", w] + rest) == Err(InvalidDictionary(w))
  {
    var open := name + Spaced(AssignOp) + "{";
    var ls := Views([open, w] + rest);
    assert [open, w] + rest == [open] + ([w] + rest);
    FirstView(open, [w] + rest);
    SecondView(open, w, rest);
    OpenLine(name);
    WordNotEntry(w);
    DictFromBadEntry(ls, map[], 1, []);
    AssignOpenStep(ls, map[], 0, Err(InvalidDictionary(w)));
    BlocksFromBadAssignment(ls, map[], 0, []);
  }

  /** A document that opens a dictionary on its first line and has the entry
      `key => f` on its second. */
  predicate OpensWithEntry(ls: seq<View>, name: string, key: string, text: string, f: ValueForm) {
    |ls| > 1 && ls[0].statement && ls[0].assignment == AssignOpen(name) && ls[1].entry == Entry(key, text, f)
  }

  /** The first entry of a top-level dictionary refers to a constant, and
      none is defined yet. */
  lemma UndefinedFirstEntry(ls: seq<View>, name: string, key: string, text: string, other: string)
    requires OpensWithEntry(ls, name, key, text, Reference(other))
    ensures BlocksFrom(ls, map[], 0, []) == Err(UndefinedConstant(other))
  {
    DictFromBadValue(ls, map[], 1, []);
    AssignOpenStep(ls, map[], 0, Err(UndefinedConstant(other)));
    BlocksFromBadAssignment(ls, map[], 0, []);
  }

  /** A two-line document: a dictionary with one integer entry and no
      closing line. */
  lemma UnterminatedEntry(ls: seq<View>, name: string, key: string, text: string, n: nat)
    requires OpensWithEntry(ls, name, key, text, Number(n)) && |ls| == 2
    ensures BlocksFrom(ls, map[], 0, []).Ok?
    ensures BlocksFrom(ls, map[], 0, []).value.blocks == [Assignment(name, Dict([(key, Int(n))]))]
  {
    var d := [(key, Int(n))];
    DictFromEntry(ls, map[], 1, [], Parsed(Int(n), 1));
    DictFromEnd(ls, map[], 2, d);
    AssignOpenStep(ls, map[], 0, Ok(Parsed(d, 2)));
    var b := Assignment(name, Dict(d));
    BlocksFromStep(ls, map[], 0, [], Parsed(b, 2));
    BlocksFromEnd(ls, map[][name := Dict(d)], 3, [b]);
  }

  /** A reference to an undefined constant inside a top-level dictionary:
      `Undefined constant`, raised from the nested `parse_value`. */
  lemma UndefinedEntryRejected(name: string, key: string, other: string, commas: string, rest: seq<string>)
    requires IsIdentifier(name) && IsIdentifier(key) && NoNewline(other) && Repeats(commas, ',')
    ensures ParseDocument([name + Spaced(AssignOp) + "{", key + Spaced(EntryOp) + (("|" + other + "|") + commas)] + rest)
      == Err(UndefinedConstant(other))
  {
    var open := name + Spaced(AssignOp) + "{";
    var value := "|" + other + "|";
    var entry := key + Spaced(EntryOp) + (value + commas);
    var c := [open, entry] + rest;
    assert c == [open] + ([entry] + rest);
    FirstView(open, [entry] + rest);
    SecondView(open, entry, rest);
    OpenLine(name);
    ReferenceEntry(key, other, commas);
    UndefinedFirstEntry(Views(c), name, key, value, other);
  }

  /** A dictionary whose closing line is missing is accepted: the entries
      read before the input ran out make up its value. */
  lemma UnterminatedAccepted(name: string, key: string, n: nat, commas: string)
    requires IsIdentifier(name) && IsIdentifier(key) && Repeats(commas, ',')
    ensures ParseDocument([name + Spaced(AssignOp) + "{", key + Spaced(EntryOp) + (DecimalText(n) + commas)])
      == Ok([Assignment(name, Dict([(key, Int(n))]))])
  {
    var open := name + Spaced(AssignOp) + "{";
    var digits := DecimalText(n);
    var entry := key + Spaced(EntryOp) + (digits + commas);
    var c := [open, entry];
    assert c == [open] + ([entry] + []);
    FirstView(open, [entry]);
    SecondView(open, entry, []);
    OpenLine(name);
    NumberEntry(key, n, commas);
    UnterminatedEntry(Views(c), name, key, digits, n);
  }
}
