/** The document of the nested-dictionaries example, for any names and any
    two texts: a dictionary three levels deep whose innermost entry holds a
    text, followed, after the nested dictionaries are closed by `},`, by a
    sibling entry of the outermost dictionary. */
module NestedScenario {
  import opened Strings
  import opened Patterns
  import opened ConfigModel
  import opened ConfigSteps
  import opened ValueReading
  import opened LineReading

  /** `n` spaces. */
  function Indent(n: nat): (r: string)
    ensures |r| == n && AllSpaces(r)
  {
    seq(n, _ => ' ')
  }

  /** The input lines, as `strip().splitlines()` leaves them. With `r` =
      `root`, `l1`, `l2`, `l3` = `level1`, `level2`, `level3`, `v` = `value`,
      `f` = `flat_value`, `s` = `deep` and `t` = `shallow` this is the
      example. */
  function NestedDocument(r: string, l1: string, l2: string, l3: string, v: string, f: string, s: string, t: string): seq<string> {
    [r + Spaced(AssignOp) + "{",
     Indent(8) + (l1 + Spaced(EntryOp) + "{"),
     Indent(12) + (l2 + Spaced(EntryOp) + "{"),
     Indent(16) + (l3 + Spaced(EntryOp) + "{"),
     Indent(20) + (v + Spaced(EntryOp) + (("[[" + s + "]]") + ",")),
     Indent(16) + "},",
     Indent(12) + "},",
     Indent(8) + "},",
     Indent(8) + (f + Spaced(EntryOp) + (("[[" + t + "]]") + ",")),
     Indent(4) + "};"]
  }

  /** The dictionary bound to `l1`: `l2` holding `l3` holding `v`. */
  function Deep(l2: string, l3: string, v: string, s: string): Value {
    Dict([(l2, Dict([(l3, Dict([(v, Text(s))]))]))])
  }

  function NestedBlocks(r: string, l1: string, l2: string, l3: string, v: string, f: string, s: string, t: string): seq<Assignment> {
    [Assignment(r, Dict([(l1, Deep(l2, l3, v, s)), (f, Text(t))]))]
  }

  /** Lines 3 to 5: the innermost dictionary is read up to its `},`. */
  lemma InnerRun(ls: seq<View>, k: Table, v: string, s: string, t4: string)
    requires |ls| == 10
    requires ls[4].entry == Entry(v, t4, Literal(s))
    requires ls[5].entry == Closing
    ensures ValueAt(ls, k, 3, Opener) == Ok(Parsed(Dict([(v, Text(s))]), 5))
  {
    DictFromEntry(ls, k, 4, [], Parsed(Text(s), 4));
    DictFromStop(ls, k, 5, [(v, Text(s))]);
    ValueAtOpen(ls, k, 3, DictFrom(ls, k, 4, []));
  }

  /** Lines 1 to 7: each `key => {` opens the next level, each `},` closes
      one, and the cursor ends on the `},` of `l1`'s dictionary. */
  lemma DeepRun(ls: seq<View>, k: Table, l2: string, l3: string, v: string, s: string, t2: string, t3: string, t4: string)
    requires |ls| == 10
    requires ls[2].entry == Entry(l2, t2, Opener)
    requires ls[3].entry == Entry(l3, t3, Opener)
    requires ls[4].entry == Entry(v, t4, Literal(s))
    requires ls[5].entry.Closing? && ls[6].entry.Closing? && ls[7].entry.Closing?
    ensures ValueAt(ls, k, 1, Opener) == Ok(Parsed(Deep(l2, l3, v, s), 7))
  {
    InnerRun(ls, k, v, s, t4);
    var e3 := [(l3, Dict([(v, Text(s))]))];
    DictFromEntry(ls, k, 3, [], Parsed(Dict([(v, Text(s))]), 5));
    DictFromStop(ls, k, 6, e3);
    ValueAtOpen(ls, k, 2, DictFrom(ls, k, 3, []));
    var e2 := [(l2, Dict(e3))];
    DictFromEntry(ls, k, 2, [], Parsed(Dict(e3), 6));
    DictFromStop(ls, k, 7, e2);
    ValueAtOpen(ls, k, 1, DictFrom(ls, k, 2, []));
  }

  /** The example read line by line: after the three nested dictionaries
      close, the sibling entry lands in the outermost dictionary, after
      `l1`. */
  lemma NestedRun(ls: seq<View>, r: string, l1: string, l2: string, l3: string, v: string, f: string, s: string, t: string,
                  t1: string, t2: string, t3: string, t4: string, t8: string)
    requires |ls| == 10 && l1 != f
    requires ls[0].statement && ls[0].assignment == AssignOpen(r)
    requires ls[1].entry == Entry(l1, t1, Opener)
    requires ls[2].entry == Entry(l2, t2, Opener)
    requires ls[3].entry == Entry(l3, t3, Opener)
    requires ls[4].entry == Entry(v, t4, Literal(s))
    requires ls[5].entry.Closing? && ls[6].entry.Closing? && ls[7].entry.Closing?
    requires ls[8].entry == Entry(f, t8, Literal(t))
    requires ls[9].entry.Closing?
    ensures BlocksFrom(ls, map[], 0, []).Ok?
    ensures BlocksFrom(ls, map[], 0, []).value.blocks == NestedBlocks(r, l1, l2, l3, v, f, s, t)
  {
    var k: Table := map[];
    DeepRun(ls, k, l2, l3, v, s, t2, t3, t4);
    var e1 := [(l1, Deep(l2, l3, v, s))];
    DictFromEntry(ls, k, 1, [], Parsed(Deep(l2, l3, v, s), 7));
    var e0 := [(l1, Deep(l2, l3, v, s)), (f, Text(t))];
    assert KeyIndex(e1, f).None? && e1 + [(f, Text(t))] == e0;
    DictFromEntry(ls, k, 8, e1, Parsed(Text(t), 8));
    DictFromStop(ls, k, 9, e0);
    AssignOpenStep(ls, k, 0, DictFrom(ls, k, 1, []));
    var b := Assignment(r, Dict(e0));
    BlocksFromStep(ls, k, 0, [], Parsed(b, 9));
    assert [] + [b] == [b];
    BlocksFromEnd(ls, k[r := Dict(e0)], 10, [b]);
  }

  /** A line `key => value` indented by `n` reads as the entry. */
  lemma IndentedEntry(n: nat, key: string, value: string)
    requires IsIdentifier(key) && |value| > 0 && Trimmed(value)
    ensures ReadEntry(Indent(n) + (key + Spaced(EntryOp) + value)) == ReadEntry(key + Spaced(EntryOp) + value)
  {
    var core := key + Spaced(EntryOp) + value;
    assert core[0] == key[0] && core[|core| - 1] == value[|value| - 1];
    EntryIndent(Indent(n), core);
  }

  /** The view of line `i` of `c` is the view of that line. */
  lemma ViewAt(c: seq<string>, i: nat)
    requires i < |c|
    ensures |Views(c)| == |c| && Views(c)[i] == ViewOf(c[i])
  {
  }

  /** Line `i`, `key => {` indented by `n`, opens a dictionary under `key`. */
  lemma OpenLineAt(c: seq<string>, i: nat, n: nat, key: string)
    requires IsIdentifier(key) && i < |c| && c[i] == Indent(n) + (key + Spaced(EntryOp) + "{")
    ensures Views(c)[i].entry == Entry(key, "{", Opener)
  {
    assert Trimmed("{");
    IndentedEntry(n, key, "{");
    OpenEntry(key);
    ViewAt(c, i);
  }

  /** Line `i`, `key => [[s]],` indented by `n`, stores the text `s`. */
  lemma LiteralLineAt(c: seq<string>, i: nat, n: nat, key: string, s: string)
    requires IsIdentifier(key) && NoNewline(s) && i < |c|
    requires c[i] == Indent(n) + (key + Spaced(EntryOp) + (("[[" + s + "]]") + ","))
    ensures Views(c)[i].entry == Entry(key, "[[" + s + "]]", Literal(s))
  {
    var value := ("[[" + s + "]]") + ",";
    assert value[0] == '[' && value[|value| - 1] == ',';
    IndentedEntry(n, key, value);
    assert Repeats(",", ',');
    LiteralEntry(key, s, ",");
    ViewAt(c, i);
  }

  /** Line `i`, `}` with a `,` or `;` indented by `n`, closes a dictionary. */
  lemma ClosingLineAt(c: seq<string>, i: nat, n: nat, t: string)
    requires (t == "}," || t == "};") && i < |c| && c[i] == Indent(n) + t
    ensures Views(c)[i].entry.Closing?
  {
    ClosingLine(Indent(n), t);
    ViewAt(c, i);
  }

  /** Line `i`, `name := {`, opens a top-level dictionary. */
  lemma OpenAssignmentAt(c: seq<string>, i: nat, name: string)
    requires IsIdentifier(name) && i < |c| && c[i] == name + Spaced(AssignOp) + "{"
    ensures Views(c)[i].statement && Views(c)[i].assignment == AssignOpen(name)
  {
    OpenLine(name);
    ViewAt(c, i);
  }

  /** What the parser makes of the lines that open a dictionary. */
  lemma NestedOpeners(c: seq<string>, r: string, l1: string, l2: string, l3: string)
    requires IsIdentifier(r) && IsIdentifier(l1) && IsIdentifier(l2) && IsIdentifier(l3)
    requires |c| == 10 && c[0] == r + Spaced(AssignOp) + "{"
    requires c[1] == Indent(8) + (l1 + Spaced(EntryOp) + "{")
    requires c[2] == Indent(12) + (l2 + Spaced(EntryOp) + "{")
    requires c[3] == Indent(16) + (l3 + Spaced(EntryOp) + "{")
    ensures var ls := Views(c);
      ls[0].statement && ls[0].assignment == AssignOpen(r)
      && ls[1].entry == Entry(l1, "{", Opener) && ls[2].entry == Entry(l2, "{", Opener)
      && ls[3].entry == Entry(l3, "{", Opener)
  {
    OpenAssignmentAt(c, 0, r);
    OpenLineAt(c, 1, 8, l1);
    OpenLineAt(c, 2, 12, l2);
    OpenLineAt(c, 3, 16, l3);
  }

  /** What the parser makes of the text entries and the closing lines. */
  lemma NestedRest(c: seq<string>, v: string, f: string, s: string, t: string)
    requires IsIdentifier(v) && IsIdentifier(f) && NoNewline(s) && NoNewline(t)
    requires |c| == 10 && c[4] == Indent(20) + (v + Spaced(EntryOp) + (("[[" + s + "]]") + ","))
    requires c[5] == Indent(16) + "}," && c[6] == Indent(12) + "}," && c[7] == Indent(8) + "},"
    requires c[8] == Indent(8) + (f + Spaced(EntryOp) + (("[[" + t + "]]") + ","))
    requires c[9] == Indent(4) + "};"
    ensures var ls := Views(c);
      ls[4].entry == Entry(v, "[[" + s + "]]", Literal(s))
      && ls[5].entry.Closing? && ls[6].entry.Closing? && ls[7].entry.Closing?
      && ls[8].entry == Entry(f, "[[" + t + "]]", Literal(t)) && ls[9].entry.Closing?
  {
    LiteralLineAt(c, 4, 20, v, s);
    ClosingLineAt(c, 5, 16, "},");
    ClosingLineAt(c, 6, 12, "},");
    ClosingLineAt(c, 7, 8, "},");
    LiteralLineAt(c, 8, 8, f, t);
    ClosingLineAt(c, 9, 4, "};");
  }

  /** Any ten lines of the example's shape parse to its one block. */
  lemma NestedParse(c: seq<string>, r: string, l1: string, l2: string, l3: string, v: string, f: string, s: string, t: string)
    requires IsIdentifier(r) && IsIdentifier(l1) && IsIdentifier(l2) && IsIdentifier(l3)
    requires IsIdentifier(v) && IsIdentifier(f) && l1 != f && NoNewline(s) && NoNewline(t)
    requires |c| == 10 && c[0] == r + Spaced(AssignOp) + "{"
    requires c[1] == Indent(8) + (l1 + Spaced(EntryOp) + "{")
    requires c[2] == Indent(12) + (l2 + Spaced(EntryOp) + "{")
    requires c[3] == Indent(16) + (l3 + Spaced(EntryOp) + "{")
    requires c[4] == Indent(20) + (v + Spaced(EntryOp) + (("[[" + s + "]]") + ","))
    requires c[5] == Indent(16) + "}," && c[6] == Indent(12) + "}," && c[7] == Indent(8) + "},"
    requires c[8] == Indent(8) + (f + Spaced(EntryOp) + (("[[" + t + "]]") + ","))
    requires c[9] == Indent(4) + "};"
    ensures ParseDocument(c) == Ok(NestedBlocks(r, l1, l2, l3, v, f, s, t))
  {
    NestedOpeners(c, r, l1, l2, l3);
    NestedRest(c, v, f, s, t);
    NestedRun(Views(c), r, l1, l2, l3, v, f, s, t, "{", "{", "{", "[[" + s + "]]", "[[" + t + "]]");
  }

  /** `test_nested_dictionaries`: the innermost text sits under `l1`, `l2`,
      `l3` and `v`, and the sibling entry after the closed levels is the
      second entry of the outermost dictionary. */
  lemma NestedDictionaries(r: string, l1: string, l2: string, l3: string, v: string, f: string, s: string, t: string)
    requires IsIdentifier(r) && IsIdentifier(l1) && IsIdentifier(l2) && IsIdentifier(l3)
    requires IsIdentifier(v) && IsIdentifier(f) && l1 != f && NoNewline(s) && NoNewline(t)
    ensures ParseDocument(NestedDocument(r, l1, l2, l3, v, f, s, t)) == Ok(NestedBlocks(r, l1, l2, l3, v, f, s, t))
  {
    NestedParse(NestedDocument(r, l1, l2, l3, v, f, s, t), r, l1, l2, l3, v, f, s, t);
  }
}
