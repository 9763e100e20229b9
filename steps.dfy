/** Single steps of the parser's two loops, stated as equations between the
    specification functions; the methods of `ConfigParser` and the lemmas of
    `DictProperties`, `DocumentProperties` and `ErrorProperties` are proved
    with them. */
module ConfigSteps {
  import opened ConfigModel

  // The `{` case of `parse_value`.

  lemma {:induction false} ValueAtOpen(ls: seq<View>, k: Table, pos: nat, spec: Result<Parsed<Entries>>)
    requires spec == DictFrom(ls, k, pos + 1, [])
    ensures spec.Ok? ==> ValueAt(ls, k, pos, Opener) == Ok(Parsed(Dict(spec.value.val), spec.value.pos))
    ensures spec.Err? ==> ValueAt(ls, k, pos, Opener) == Err(spec.error)
  {
  }

  // One step of the dictionary loop.

  lemma {:induction false} DictFromEnd(ls: seq<View>, k: Table, pos: nat, acc: Entries)
    requires pos >= |ls|
    ensures DictFrom(ls, k, pos, acc) == Ok(Parsed(acc, pos))
  {
  }

  lemma {:induction false} DictFromStop(ls: seq<View>, k: Table, pos: nat, acc: Entries)
    requires pos < |ls| && ls[pos].entry.Closing?
    ensures DictFrom(ls, k, pos, acc) == Ok(Parsed(acc, pos))
  {
  }

  lemma {:induction false} DictFromBadEntry(ls: seq<View>, k: Table, pos: nat, acc: Entries)
    requires pos < |ls| && ls[pos].entry.BadEntry?
    ensures DictFrom(ls, k, pos, acc) == Err(InvalidDictionary(ls[pos].entry.line))
  {
  }

  lemma {:induction false} DictFromBadValue(ls: seq<View>, k: Table, pos: nat, acc: Entries)
    requires pos < |ls| && ls[pos].entry.Entry?
    requires ValueAt(ls, k, pos, ls[pos].entry.form).Err?
    ensures DictFrom(ls, k, pos, acc) == Err(ValueAt(ls, k, pos, ls[pos].entry.form).error)
  {
  }

  lemma {:induction false} DictFromEntry(ls: seq<View>, k: Table, pos: nat, acc: Entries, p: Parsed<Value>)
    requires pos < |ls| && ls[pos].entry.Entry?
    requires ValueAt(ls, k, pos, ls[pos].entry.form) == Ok(p)
    ensures DictFrom(ls, k, pos, acc) == DictFrom(ls, k, p.pos + 1, Insert(acc, ls[pos].entry.key, p.val))
  {
  }

  // One step of the top-level loop.

  lemma {:induction false} BlocksFromEnd(ls: seq<View>, k: Table, pos: nat, acc: seq<Assignment>)
    requires pos >= |ls|
    ensures BlocksFrom(ls, k, pos, acc) == Ok(Session(acc, k, pos))
  {
  }

  lemma {:induction false} BlocksFromBadLine(ls: seq<View>, k: Table, pos: nat, acc: seq<Assignment>)
    requires pos < |ls| && !ls[pos].statement
    ensures BlocksFrom(ls, k, pos, acc) == Err(UnexpectedSyntax(ls[pos].line))
  {
  }

  lemma {:induction false} BlocksFromBadAssignment(ls: seq<View>, k: Table, pos: nat, acc: seq<Assignment>)
    requires pos < |ls| && ls[pos].statement && Assign(ls, k, pos).Err?
    ensures BlocksFrom(ls, k, pos, acc) == Err(Assign(ls, k, pos).error)
  {
  }

  lemma {:induction false} BlocksFromStep(ls: seq<View>, k: Table, pos: nat, acc: seq<Assignment>, p: Parsed<Assignment>)
    requires pos < |ls| && ls[pos].statement && Assign(ls, k, pos) == Ok(p)
    ensures BlocksFrom(ls, k, pos, acc) == BlocksFrom(ls, k[p.val.name := p.val.value], p.pos + 1, acc + [p.val])
  {
  }

  // The four shapes of a top-level assignment.

  lemma {:induction false} AssignOpenStep(ls: seq<View>, k: Table, pos: nat, spec: Result<Parsed<Entries>>)
    requires pos < |ls| && ls[pos].assignment.AssignOpen? && spec == DictFrom(ls, k, pos + 1, [])
    ensures spec.Ok? ==> Assign(ls, k, pos) == Ok(Parsed(Assignment(ls[pos].assignment.name, Dict(spec.value.val)), spec.value.pos))
    ensures spec.Err? ==> Assign(ls, k, pos) == Err(spec.error)
  {
  }

  lemma {:induction false} AssignRefStep(ls: seq<View>, k: Table, pos: nat)
    requires pos < |ls| && ls[pos].assignment.AssignRef?
    ensures ls[pos].assignment.ref in k ==>
      Assign(ls, k, pos) == Ok(Parsed(Assignment(ls[pos].assignment.name, k[ls[pos].assignment.ref]), pos))
    ensures ls[pos].assignment.ref !in k ==> Assign(ls, k, pos) == Err(UndefinedConstant(ls[pos].assignment.ref))
  {
  }

  lemma {:induction false} AssignValueStep(ls: seq<View>, k: Table, pos: nat, spec: Result<Parsed<Value>>)
    requires pos < |ls| && ls[pos].assignment.AssignValue? && spec == ValueAt(ls, k, pos, ls[pos].assignment.form)
    ensures spec.Ok? ==> Assign(ls, k, pos) == Ok(Parsed(Assignment(ls[pos].assignment.name, spec.value.val), spec.value.pos))
    ensures spec.Err? ==> Assign(ls, k, pos) == Err(spec.error)
  {
  }
}
