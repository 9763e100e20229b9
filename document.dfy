/** What the parser promises about a whole document: the blocks come one per
    top-level assignment and in order, earlier blocks are never revisited,
    and the constant table ends up binding each name to the value of the last
    block that assigned it. */
module DocumentProperties {
  import opened ConfigModel
  import opened ConfigSteps
  import opened DictProperties

  /** The table `k` after the assignments `bs`, applied in order. */
  function Bind(k: Table, bs: seq<Assignment>): (r: Table)
    ensures forall b :: b in bs ==> b.name in r
    decreases |bs|
  {
    if |bs| == 0 then k
    else
      var last := bs[|bs| - 1];
      Bind(k, bs[..|bs| - 1])[last.name := last.value]
  }

  /** Applying one assignment and then the rest is applying them all. */
  lemma {:induction false} BindCons(k: Table, b: Assignment, rest: seq<Assignment>)
    decreases |rest|
    ensures Bind(k[b.name := b.value], rest) == Bind(k, [b] + rest)
  {
    if |rest| > 0 {
      var all := [b] + rest;
      assert all[..|all| - 1] == [b] + rest[..|rest| - 1];
      assert all[|all| - 1] == rest[|rest| - 1];
      BindCons(k, b, rest[..|rest| - 1]);
    } else {
      assert [b] + rest == [b];
      assert [b][..0] == [];
    }
  }

  /** The last block that assigns a name decides its value. */
  lemma {:induction false} BindLatest(k: Table, bs: seq<Assignment>, i: nat)
    requires i < |bs| && forall j :: i < j < |bs| ==> bs[j].name != bs[i].name
    decreases |bs|
    ensures bs[i].name in Bind(k, bs) && Bind(k, bs)[bs[i].name] == bs[i].value
  {
    if i < |bs| - 1 {
      var init := bs[..|bs| - 1];
      assert init[i] == bs[i];
      forall j | i < j < |init| ensures init[j].name != init[i].name {
        assert init[j] == bs[j];
      }
      BindLatest(k, init, i);
    }
  }

  /** A name no block assigns keeps the value it had before. */
  lemma {:induction false} BindUntouched(k: Table, bs: seq<Assignment>, name: string)
    requires forall j :: 0 <= j < |bs| ==> bs[j].name != name
    decreases |bs|
    ensures name in Bind(k, bs) <==> name in k
    ensures name in k ==> Bind(k, bs)[name] == k[name]
  {
    if |bs| > 0 {
      var init := bs[..|bs| - 1];
      forall j | 0 <= j < |init| ensures init[j].name != name {
        assert init[j] == bs[j];
      }
      BindUntouched(k, init, name);
    }
  }

  /** The session `s` keeps the blocks `acc` as they are, and its table is
      `k` updated by the blocks that follow them. */
  predicate Continues(acc: seq<Assignment>, k: Table, s: Session) {
    |acc| <= |s.blocks| && s.blocks[..|acc|] == acc && s.constants == Bind(k, s.blocks[|acc|..])
  }

  /** One more block at the front of what follows `acc`. */
  lemma ContinuesStep(acc: seq<Assignment>, k: Table, b: Assignment, s: Session)
    requires Continues(acc + [b], k[b.name := b.value], s)
    ensures Continues(acc, k, s)
  {
    var bs := s.blocks;
    var acc2 := acc + [b];
    assert bs[..|acc|] == acc2[..|acc|] == acc;
    assert bs[|acc|..] == [b] + bs[|acc2|..] by {
      assert bs[|acc|] == acc2[|acc|] == b;
    }
    BindCons(k, b, bs[|acc2|..]);
  }

  /** From any point of the top-level loop: the blocks read so far are kept
      as they are, the new blocks follow them, and the final table is the
      table at that point updated by the new blocks in order. */
  lemma {:induction false} BlocksFromShape(ls: seq<View>, k: Table, pos: nat, acc: seq<Assignment>)
    decreases Remaining(ls, pos)
    ensures BlocksFrom(ls, k, pos, acc).Ok? ==> Continues(acc, k, BlocksFrom(ls, k, pos, acc).value)
  {
    if pos >= |ls| {
      BlocksFromEnd(ls, k, pos, acc);
      assert acc[|acc|..] == [];
    } else if ls[pos].statement && Assign(ls, k, pos).Ok? {
      var p := Assign(ls, k, pos).value;
      var b := p.val;
      BlocksFromStep(ls, k, pos, acc, p);
      BlocksFromShape(ls, k[b.name := b.value], p.pos + 1, acc + [b]);
      var r := BlocksFrom(ls, k, pos, acc);
      if r.Ok? {
        ContinuesStep(acc, k, b, r.value);
      }
    }
  }

  /** A dictionary assigned at the top level ends on its closing line, or
      where the input ends, and the next block is read from the line after
      it: the closing line is never taken for a statement. */
  lemma DictionaryClosed(ls: seq<View>, k: Table, pos: nat, acc: seq<Assignment>)
    requires pos < |ls| && ls[pos].statement && ls[pos].assignment.AssignOpen?
    requires Assign(ls, k, pos).Ok?
    ensures var p := Assign(ls, k, pos).value;
      (p.pos >= |ls| || ls[p.pos].entry.Closing?)
      && BlocksFrom(ls, k, pos, acc) == BlocksFrom(ls, k[p.val.name := p.val.value], p.pos + 1, acc + [p.val])
  {
    var spec := DictFrom(ls, k, pos + 1, []);
    AssignOpenStep(ls, k, pos, spec);
    BlocksFromStep(ls, k, pos, acc, Assign(ls, k, pos).value);
  }

  /** After a successful parse the constant table binds every assigned name
      to the value of the last block that assigns it, and nothing else. */
  lemma ParseConstants(ls: seq<View>)
    ensures BlocksFrom(ls, map[], 0, []).Ok? ==>
      var s := BlocksFrom(ls, map[], 0, []).value;
      s.constants == Bind(map[], s.blocks)
      && (forall i :: 0 <= i < |s.blocks| && (forall j :: i < j < |s.blocks| ==> s.blocks[j].name != s.blocks[i].name)
            ==> s.blocks[i].name in s.constants && s.constants[s.blocks[i].name] == s.blocks[i].value)
      && (forall name :: name in s.constants ==> exists i :: 0 <= i < |s.blocks| && s.blocks[i].name == name)
  {
    BlocksFromShape(ls, map[], 0, []);
    var r := BlocksFrom(ls, map[], 0, []);
    if r.Ok? {
      var s := r.value;
      assert s.blocks[0..] == s.blocks;
      forall i | 0 <= i < |s.blocks| && (forall j :: i < j < |s.blocks| ==> s.blocks[j].name != s.blocks[i].name)
        ensures s.blocks[i].name in s.constants && s.constants[s.blocks[i].name] == s.blocks[i].value
      {
        BindLatest(map[], s.blocks, i);
      }
      forall name | name in s.constants ensures exists i :: 0 <= i < |s.blocks| && s.blocks[i].name == name {
        if forall j :: 0 <= j < |s.blocks| ==> s.blocks[j].name != name {
          BindUntouched(map[], s.blocks, name);
        }
      }
    }
  }

  // ----- Every dictionary of a document has distinct keys -----

  predicate BlocksWellFormed(bs: seq<Assignment>) {
    forall i :: 0 <= i < |bs| ==> WellFormed(bs[i].value)
  }

  /** Binding a well-formed value keeps the table well formed. */
  lemma BindWellFormed(k: Table, name: string, v: Value)
    requires TableWellFormed(k) && WellFormed(v)
    ensures TableWellFormed(k[name := v])
  {
  }

  /** `parse_assignment` builds a well-formed value from a well-formed table:
      a new dictionary, a copy of a constant, or what `parse_value` reads. */
  lemma AssignWellFormed(ls: seq<View>, k: Table, pos: nat)
    requires pos < |ls| && TableWellFormed(k)
    ensures Assign(ls, k, pos).Ok? ==> WellFormed(Assign(ls, k, pos).value.val.value)
  {
    match ls[pos].assignment
    case BadAssignment =>
    case AssignOpen(_) =>
      AssignOpenStep(ls, k, pos, DictFrom(ls, k, pos + 1, []));
      DictFromWellFormed(ls, k, pos + 1, []);
    case AssignRef(_, _) =>
      AssignRefStep(ls, k, pos);
    case AssignValue(_, _, f) =>
      AssignValueStep(ls, k, pos, ValueAt(ls, k, pos, f));
      ValueAtWellFormed(ls, k, pos, f);
  }

  lemma {:induction false} BlocksFromWellFormed(ls: seq<View>, k: Table, pos: nat, acc: seq<Assignment>)
    requires TableWellFormed(k) && BlocksWellFormed(acc)
    decreases Remaining(ls, pos), 1
    ensures BlocksFrom(ls, k, pos, acc).Ok? ==>
      TableWellFormed(BlocksFrom(ls, k, pos, acc).value.constants)
      && BlocksWellFormed(BlocksFrom(ls, k, pos, acc).value.blocks)
  {
    if pos >= |ls| {
      BlocksFromEnd(ls, k, pos, acc);
    } else if !ls[pos].statement {
      BlocksFromBadLine(ls, k, pos, acc);
    } else if Assign(ls, k, pos).Err? {
      BlocksFromBadAssignment(ls, k, pos, acc);
    } else {
      var p := Assign(ls, k, pos).value;
      BlocksFromStep(ls, k, pos, acc, p);
      BlockWellFormed(ls, k, pos, acc, p);
    }
  }

  /** The rest of the document after one well-formed block. */
  lemma {:induction false} BlockWellFormed(ls: seq<View>, k: Table, pos: nat, acc: seq<Assignment>, p: Parsed<Assignment>)
    requires TableWellFormed(k) && BlocksWellFormed(acc)
    requires pos < |ls| && Assign(ls, k, pos) == Ok(p)
    decreases Remaining(ls, pos), 0
    ensures var r := BlocksFrom(ls, k[p.val.name := p.val.value], p.pos + 1, acc + [p.val]);
      r.Ok? ==> TableWellFormed(r.value.constants) && BlocksWellFormed(r.value.blocks)
  {
    AssignWellFormed(ls, k, pos);
    BindWellFormed(k, p.val.name, p.val.value);
    assert BlocksWellFormed(acc + [p.val]) by {
      forall i | 0 <= i < |acc| + 1 ensures WellFormed((acc + [p.val])[i].value) {
        if i < |acc| {
          assert (acc + [p.val])[i] == acc[i];
        }
      }
    }
    BlocksFromWellFormed(ls, k[p.val.name := p.val.value], p.pos + 1, acc + [p.val]);
  }

  /** After a successful parse every constant and every block value has
      distinct keys in each of its dictionaries, at any depth. */
  lemma DocumentWellFormed(c: seq<string>)
    ensures var r := BlocksFrom(Views(c), map[], 0, []);
      r.Ok? ==> TableWellFormed(r.value.constants) && BlocksWellFormed(r.value.blocks)
    ensures ParseDocument(c).Ok? ==> BlocksWellFormed(ParseDocument(c).value)
  {
    BlocksFromWellFormed(Views(c), map[], 0, []);
  }
}
