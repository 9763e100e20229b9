/** The document of the constant-evaluation example, for any three names, any
    key and any integer: a constant, a copy of it through `|name|`, and a
    dictionary whose entry refers to it. All three blocks carry the integer. */
module Scenarios {
  import opened Strings
  import opened Patterns
  import opened ConfigModel
  import opened ConfigSteps
  import opened ValueReading
  import opened LineReading

  /** The input lines, as `strip().splitlines()` leaves them: the first line
      without its indentation, the others with it. With `a` = `constant_value`,
      `b` = `evaluated_value`, `d` = `settings`, `key` = `key` and `n` = 42 this
      is the example. */
  function ConstantLines(a: string, b: string, d: string, key: string, n: nat): seq<string> {
    [a + Spaced(AssignOp) + (DecimalText(n) + ";"),
     "    " + (b + Spaced(AssignOp) + (("|" + a + "|") + ";")),
     "    " + (d + Spaced(AssignOp) + "{"),
     "        " + (key + Spaced(EntryOp) + (("|" + a + "|") + ",")),
     "    " + "};"]
  }

  function ConstantBlocks(a: string, b: string, d: string, key: string, n: nat): seq<Assignment> {
    [Assignment(a, Int(n)), Assignment(b, Int(n)), Assignment(d, Dict([(key, Int(n))]))]
  }

  /** `N;` is the integer `N`. */
  lemma NumberStatement(n: nat)
    ensures var value := DecimalText(n) + ";";
      |value| > 0 && Trimmed(value) && NoNewline(value) && value != "{" && ReferenceName(value).None?
      && ReadValue(value) == Number(n)
  {
    var digits := DecimalText(n);
    var value := digits + ";";
    assert value[0] == digits[0] && IsDigit(digits[0]);
    assert value[|value| - 1] == ';';
    forall i | 0 <= i < |value| ensures value[i] != '\n' {
      if i < |digits| {
        assert IsDigit(digits[i]);
      }
    }
    assert Repeats(";", ';');
    ReadNumber(n, ";");
  }

  /** `|a|;` is a reference to `a`. */
  lemma ReferenceStatement(a: string)
    requires IsIdentifier(a)
    ensures var value := ("|" + a + "|") + ";";
      |value| > 0 && Trimmed(value) && NoNewline(value) && value != "{" && ReferenceName(value).None?
      && ReadValue(value) == Reference(a)
  {
    var value := ("|" + a + "|") + ";";
    assert value[0] == '|' && value[|value| - 1] == ';';
    forall i | 0 <= i < |value| ensures value[i] != '\n' {
      if 0 < i < |value| - 2 {
        assert value[i] == a[i - 1];
        if i > 1 {
          assert IsIdentChar(a[i - 1]);
        }
      }
    }
    assert Repeats(";", ';');
    ReadReference(a, ";");
  }

  /** The indentations of the example. */
  lemma FourSpaces()
    ensures AllSpaces("    ")
  {
  }

  lemma EightSpaces()
    ensures AllSpaces("        ")
  {
  }

  lemma Line0(line: string, a: string, n: nat)
    requires IsIdentifier(a) && line == a + Spaced(AssignOp) + (DecimalText(n) + ";")
    ensures ViewOf(line).statement && ViewOf(line).assignment == AssignValue(a, DecimalText(n) + ";", Number(n))
  {
    NumberStatement(n);
    ValueLine(a, DecimalText(n) + ";");
  }

  /** An assignment or entry line starts with a letter and ends with the end
      of its value, so it is trimmed. */
  lemma BindingTrimmed(name: string, op: string, value: string)
    requires IsIdentifier(name) && |value| > 0 && Trimmed(value)
    ensures Trimmed(name + Spaced(op) + value)
  {
    var line := name + Spaced(op) + value;
    assert line[0] == name[0] && line[|line| - 1] == value[|value| - 1];
  }

  lemma Line1(line: string, a: string, b: string)
    requires IsIdentifier(a) && IsIdentifier(b) && line == "    " + (b + Spaced(AssignOp) + (("|" + a + "|") + ";"))
    ensures ViewOf(line).statement && ViewOf(line).assignment == AssignValue(b, ("|" + a + "|") + ";", Reference(a))
  {
    var value := ("|" + a + "|") + ";";
    ReferenceStatement(a);
    BindingTrimmed(b, AssignOp, value);
    FourSpaces();
    ViewIndent("    ", b + Spaced(AssignOp) + value);
    ValueLine(b, value);
  }

  lemma Line2(line: string, d: string)
    requires IsIdentifier(d) && line == "    " + (d + Spaced(AssignOp) + "{")
    ensures ViewOf(line).statement && ViewOf(line).assignment == AssignOpen(d)
  {
    assert Trimmed("{");
    BindingTrimmed(d, AssignOp, "{");
    FourSpaces();
    ViewIndent("    ", d + Spaced(AssignOp) + "{");
    OpenLine(d);
  }

  lemma IdentifierNoNewline(a: string)
    requires IsIdentifier(a)
    ensures NoNewline(a)
  {
    forall i | 0 <= i < |a| ensures a[i] != '\n' {
      if i > 0 {
        assert IsIdentChar(a[i]);
      }
    }
  }

  lemma EntryCore(a: string, key: string)
    requires IsIdentifier(a) && IsIdentifier(key)
    ensures var core := key + Spaced(EntryOp) + (("|" + a + "|") + ",");
      Trimmed(core) && ReadEntry(core) == Entry(key, "|" + a + "|", Reference(a))
  {
    var value := ("|" + a + "|") + ",";
    assert value[0] == '|' && value[|value| - 1] == ',';
    BindingTrimmed(key, EntryOp, value);
    IdentifierNoNewline(a);
    assert Repeats(",", ',');
    ReferenceEntry(key, a, ",");
  }

  lemma Line3(line: string, a: string, key: string)
    requires IsIdentifier(a) && IsIdentifier(key) && line == "        " + (key + Spaced(EntryOp) + (("|" + a + "|") + ","))
    ensures ReadEntry(line) == Entry(key, "|" + a + "|", Reference(a))
  {
    EightSpaces();
    EntryCore(a, key);
    EntryIndent("        ", key + Spaced(EntryOp) + (("|" + a + "|") + ","));
  }

  lemma Line4(line: string)
    requires line == "    " + "};"
    ensures ReadEntry(line) == Closing
  {
    FourSpaces();
    ClosingLine("    ", "};");
  }

  /** The example read line by line: the integer is bound, copied, and read
      again inside the dictionary; the closing line is stepped over. */
  lemma ConstantRun(ls: seq<View>, a: string, b: string, d: string, key: string, n: nat, t0: string, t1: string, t3: string)
    requires |ls| == 5
    requires ls[0].statement && ls[0].assignment == AssignValue(a, t0, Number(n))
    requires ls[1].statement && ls[1].assignment == AssignValue(b, t1, Reference(a))
    requires ls[2].statement && ls[2].assignment == AssignOpen(d)
    requires ls[3].entry == Entry(key, t3, Reference(a))
    requires ls[4].entry == Closing
    ensures BlocksFrom(ls, map[], 0, []).Ok?
    ensures BlocksFrom(ls, map[], 0, []).value.blocks == ConstantBlocks(a, b, d, key, n)
  {
    var bs := ConstantBlocks(a, b, d, key, n);
    var k1 := map[][a := Int(n)];
    AssignValueStep(ls, map[], 0, Ok(Parsed(Int(n), 0)));
    BlocksFromStep(ls, map[], 0, [], Parsed(bs[0], 0));
    assert [] + [bs[0]] == [bs[0]];
    var k2 := k1[b := Int(n)];
    AssignValueStep(ls, k1, 1, Ok(Parsed(Int(n), 1)));
    BlocksFromStep(ls, k1, 1, [bs[0]], Parsed(bs[1], 1));
    assert [bs[0]] + [bs[1]] == [bs[0], bs[1]];
    var entries := [(key, Int(n))];
    assert a in k2 && k2[a] == Int(n);
    DictFromEntry(ls, k2, 3, [], Parsed(Int(n), 3));
    assert Insert([], key, Int(n)) == entries;
    DictFromStop(ls, k2, 4, entries);
    AssignOpenStep(ls, k2, 2, Ok(Parsed(entries, 4)));
    BlocksFromStep(ls, k2, 2, [bs[0], bs[1]], Parsed(bs[2], 4));
    assert [bs[0], bs[1]] + [bs[2]] == [bs[0], bs[1], bs[2]];
    BlocksFromEnd(ls, k2[d := Dict(entries)], 5, [bs[0], bs[1], bs[2]]);
    assert [bs[0], bs[1], bs[2]] == bs;
  }

  /** What the parser makes of each line of the example. */
  lemma View0(a: string, b: string, d: string, key: string, n: nat)
    requires IsIdentifier(a)
    ensures var ls := Views(ConstantLines(a, b, d, key, n));
      |ls| == 5 && ls[0].statement && ls[0].assignment == AssignValue(a, DecimalText(n) + ";", Number(n))
  {
    var c := ConstantLines(a, b, d, key, n);
    Line0(c[0], a, n);
    assert Views(c)[0] == ViewOf(c[0]);
  }

  lemma View1(a: string, b: string, d: string, key: string, n: nat)
    requires IsIdentifier(a) && IsIdentifier(b)
    ensures var ls := Views(ConstantLines(a, b, d, key, n));
      |ls| == 5 && ls[1].statement && ls[1].assignment == AssignValue(b, ("|" + a + "|") + ";", Reference(a))
  {
    var c := ConstantLines(a, b, d, key, n);
    Line1(c[1], a, b);
    assert Views(c)[1] == ViewOf(c[1]);
  }

  lemma View2(a: string, b: string, d: string, key: string, n: nat)
    requires IsIdentifier(d)
    ensures var ls := Views(ConstantLines(a, b, d, key, n));
      |ls| == 5 && ls[2].statement && ls[2].assignment == AssignOpen(d)
  {
    var c := ConstantLines(a, b, d, key, n);
    Line2(c[2], d);
    assert Views(c)[2] == ViewOf(c[2]);
  }

  lemma View3(a: string, b: string, d: string, key: string, n: nat)
    requires IsIdentifier(a) && IsIdentifier(key)
    ensures var ls := Views(ConstantLines(a, b, d, key, n));
      |ls| == 5 && ls[3].entry == Entry(key, "|" + a + "|", Reference(a))
  {
    var c := ConstantLines(a, b, d, key, n);
    Line3(c[3], a, key);
    assert Views(c)[3] == ViewOf(c[3]);
  }

  lemma View4(a: string, b: string, d: string, key: string, n: nat)
    ensures var ls := Views(ConstantLines(a, b, d, key, n));
      |ls| == 5 && ls[4].entry == Closing
  {
    var c := ConstantLines(a, b, d, key, n);
    Line4(c[4]);
    assert Views(c)[4] == ViewOf(c[4]);
  }

  /** `test_constant_evaluation`: the constant, its copy and the dictionary
      entry that refers to it all carry the integer. */
  lemma ConstantEvaluation(a: string, b: string, d: string, key: string, n: nat)
    requires IsIdentifier(a) && IsIdentifier(b) && IsIdentifier(d) && IsIdentifier(key)
    ensures ParseDocument(ConstantLines(a, b, d, key, n)) == Ok(ConstantBlocks(a, b, d, key, n))
  {
    View0(a, b, d, key, n);
    View1(a, b, d, key, n);
    View2(a, b, d, key, n);
    View3(a, b, d, key, n);
    View4(a, b, d, key, n);
    ConstantRun(Views(ConstantLines(a, b, d, key, n)), a, b, d, key, n, DecimalText(n) + ";", ("|" + a + "|") + ";", "|" + a + "|");
  }
}
