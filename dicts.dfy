/** What the parser promises about the dictionaries it builds: a key is
    found where it was first inserted and reads back the last value stored
    under it, keys stay distinct and in the order of their first appearance,
    and dictionaries nest to any depth. */
module DictProperties {
  import opened Strings
  import opened ConfigModel
  import opened ConfigSteps

  // ----- dictionary[key] = value -----

  /** The first entry for `k` is where `KeyIndex` finds it. */
  lemma KeyIndexAt(d: Entries, k: string, i: nat)
    requires i < |d| && d[i].0 == k && forall j :: 0 <= j < i ==> d[j].0 != k
    ensures KeyIndex(d, k) == Some(i)
  {
  }

  /** Two dictionaries that have `k` at the same places find it at the same place. */
  lemma KeyIndexSame(d1: Entries, d2: Entries, k: string)
    requires |d1| == |d2| && forall j :: 0 <= j < |d1| ==> (d1[j].0 == k <==> d2[j].0 == k)
    ensures KeyIndex(d1, k) == KeyIndex(d2, k)
  {
    if KeyIndex(d1, k).Some? {
      KeyIndexAt(d2, k, KeyIndex(d1, k).value);
    }
  }

  /** A last entry whose key is not `k` is never where `k` is found. */
  lemma KeyIndexDropLast(d: Entries, k: string)
    requires |d| > 0 && d[|d| - 1].0 != k
    ensures KeyIndex(d, k) == KeyIndex(d[..|d| - 1], k)
  {
    var e := d[..|d| - 1];
    if KeyIndex(d, k).Some? {
      KeyIndexAt(e, k, KeyIndex(d, k).value);
    } else if KeyIndex(e, k).Some? {
      KeyIndexAt(d, k, KeyIndex(e, k).value);
    }
  }

  /** Reading back a key after `dictionary[key] = value`: the new value for
      that key, the old lookup for every other key. */
  lemma LookupInsert(d: Entries, key: string, v: Value, other: string)
    ensures Lookup(Insert(d, key, v), key) == Some(v)
    ensures other != key ==> Lookup(Insert(d, key, v), other) == Lookup(d, other)
  {
    var r := Insert(d, key, v);
    match KeyIndex(d, key)
    case None =>
      assert r == d + [(key, v)];
      KeyIndexAt(r, key, |d|);
      assert r[..|d|] == d;
      if other != key {
        KeyIndexDropLast(r, other);
      }
    case Some(i) =>
      KeyIndexAt(r, key, i);
      KeyIndexSame(d, r, other);
  }

  /** Insertion keeps every key where it was; a new key goes after all of
      them, and an existing key keeps its place. */
  lemma InsertKeepsOrder(d: Entries, key: string, v: Value)
    ensures |Insert(d, key, v)| == if KeyIndex(d, key).None? then |d| + 1 else |d|
    ensures forall i :: 0 <= i < |d| ==> Insert(d, key, v)[i].0 == d[i].0
    ensures KeyIndex(d, key).None? ==> Insert(d, key, v)[|d|] == (key, v)
    ensures KeyIndex(Insert(d, key, v), key) == KeyIndex(d, key) || KeyIndex(d, key).None?
  {
    var r := Insert(d, key, v);
    if KeyIndex(d, key).Some? {
      KeyIndexSame(d, r, key);
    }
  }

  /** Insertion never creates a second entry for a key. */
  lemma InsertDistinct(d: Entries, key: string, v: Value)
    requires DistinctKeys(d)
    ensures DistinctKeys(Insert(d, key, v))
  {
    var r := Insert(d, key, v);
    if KeyIndex(d, key).None? {
      forall i, j | 0 <= i < j < |r| ensures r[i].0 != r[j].0 {
        if j == |d| {
          assert r[i] == d[i];
        } else {
          assert r[i] == d[i] && r[j] == d[j];
        }
      }
    }
  }

  // ----- Well-formed values -----

  /** A value whose every dictionary, to any depth, has distinct keys: what a
      Python `dict` guarantees. */
  predicate WellFormed(v: Value)
    decreases v
  {
    match v
    case Dict(es) => DistinctKeys(es) && forall i :: 0 <= i < |es| ==> WellFormed(es[i].1)
    case _ => true
  }

  predicate EntriesWellFormed(es: Entries) {
    DistinctKeys(es) && forall i :: 0 <= i < |es| ==> WellFormed(es[i].1)
  }

  predicate TableWellFormed(k: Table) {
    forall name :: name in k ==> WellFormed(k[name])
  }

  lemma InsertWellFormed(d: Entries, key: string, v: Value)
    requires EntriesWellFormed(d) && WellFormed(v)
    ensures EntriesWellFormed(Insert(d, key, v))
  {
    InsertDistinct(d, key, v);
    var r := Insert(d, key, v);
    forall i | 0 <= i < |r| ensures WellFormed(r[i].1) {
      if i < |d| && r[i] != (key, v) {
        assert r[i] == d[i];
      }
    }
  }

  /** Every value `parse_value` produces is well formed, given a well-formed
      constant table: nested dictionaries are built by keyed assignment too. */
  lemma {:induction false} ValueAtWellFormed(ls: seq<View>, k: Table, pos: nat, f: ValueForm)
    requires TableWellFormed(k)
    decreases Remaining(ls, pos), if pos < |ls| then 0 else 3
    ensures ValueAt(ls, k, pos, f).Ok? ==> WellFormed(ValueAt(ls, k, pos, f).value.val)
  {
    if f.Opener? {
      DictFromWellFormed(ls, k, pos + 1, []);
    }
  }

  lemma {:induction false} DictFromWellFormed(ls: seq<View>, k: Table, pos: nat, acc: Entries)
    requires TableWellFormed(k) && EntriesWellFormed(acc)
    decreases Remaining(ls, pos), 2
    ensures DictFrom(ls, k, pos, acc).Ok? ==> EntriesWellFormed(DictFrom(ls, k, pos, acc).value.val)
  {
    if pos >= |ls| {
      DictFromEnd(ls, k, pos, acc);
    } else {
      match ls[pos].entry
      case Closing =>
        DictFromStop(ls, k, pos, acc);
      case BadEntry(_) =>
        DictFromBadEntry(ls, k, pos, acc);
      case Entry(key, _, f) =>
        if ValueAt(ls, k, pos, f).Err? {
          DictFromBadValue(ls, k, pos, acc);
        } else {
          var p := ValueAt(ls, k, pos, f).value;
          DictFromEntry(ls, k, pos, acc, p);
          EntryWellFormed(ls, k, pos, acc, p);
        }
    }
  }

  /** One entry read successfully keeps the entries well formed up to the
      end of the dictionary. */
  lemma {:induction false} EntryWellFormed(ls: seq<View>, k: Table, pos: nat, acc: Entries, p: Parsed<Value>)
    requires TableWellFormed(k) && EntriesWellFormed(acc)
    requires pos < |ls| && ls[pos].entry.Entry? && ValueAt(ls, k, pos, ls[pos].entry.form) == Ok(p)
    decreases Remaining(ls, pos), 1
    ensures var next := Insert(acc, ls[pos].entry.key, p.val);
      DictFrom(ls, k, p.pos + 1, next).Ok? ==> EntriesWellFormed(DictFrom(ls, k, p.pos + 1, next).value.val)
  {
    var key := ls[pos].entry.key;
    ValueAtWellFormed(ls, k, pos, ls[pos].entry.form);
    InsertWellFormed(acc, key, p.val);
    DictFromWellFormed(ls, k, p.pos + 1, Insert(acc, key, p.val));
  }

  /** `d` starts with the keys of `acc`, in the same order. */
  predicate KeysExtend(acc: Entries, d: Entries) {
    |acc| <= |d| && forall i :: 0 <= i < |acc| ==> d[i].0 == acc[i].0
  }

  lemma KeysExtendTrans(a: Entries, b: Entries, c: Entries)
    requires KeysExtend(a, b) && KeysExtend(b, c)
    ensures KeysExtend(a, c)
  {
  }

  lemma InsertExtends(d: Entries, key: string, v: Value)
    ensures KeysExtend(d, Insert(d, key, v))
  {
    InsertKeepsOrder(d, key, v);
  }

  /** The entries read so far keep their keys and their order: a dictionary's
      keys stand in the order of their first appearance. */
  lemma {:induction false} DictFromKeepsOrder(ls: seq<View>, k: Table, pos: nat, acc: Entries)
    decreases Remaining(ls, pos), 1
    ensures DictFrom(ls, k, pos, acc).Ok? ==> KeysExtend(acc, DictFrom(ls, k, pos, acc).value.val)
  {
    if pos >= |ls| {
      DictFromEnd(ls, k, pos, acc);
    } else {
      match ls[pos].entry
      case Closing =>
        DictFromStop(ls, k, pos, acc);
      case BadEntry(_) =>
        DictFromBadEntry(ls, k, pos, acc);
      case Entry(key, _, f) =>
        if ValueAt(ls, k, pos, f).Err? {
          DictFromBadValue(ls, k, pos, acc);
        } else {
          var p := ValueAt(ls, k, pos, f).value;
          DictFromEntry(ls, k, pos, acc, p);
          EntryKeepsOrder(ls, k, pos, acc, p);
        }
    }
  }

  /** One entry read successfully keeps the keys read so far in place up to
      the end of the dictionary. */
  lemma {:induction false} EntryKeepsOrder(ls: seq<View>, k: Table, pos: nat, acc: Entries, p: Parsed<Value>)
    requires pos < |ls| && ls[pos].entry.Entry? && ValueAt(ls, k, pos, ls[pos].entry.form) == Ok(p)
    decreases Remaining(ls, pos), 0
    ensures var next := Insert(acc, ls[pos].entry.key, p.val);
      DictFrom(ls, k, p.pos + 1, next).Ok? ==> KeysExtend(acc, DictFrom(ls, k, p.pos + 1, next).value.val)
  {
    var next := Insert(acc, ls[pos].entry.key, p.val);
    InsertExtends(acc, ls[pos].entry.key, p.val);
    DictFromKeepsOrder(ls, k, p.pos + 1, next);
    ExtendsThrough(acc, next, DictFrom(ls, k, p.pos + 1, next));
  }

  /** What extends `next`, which extends `acc`, extends `acc`. */
  lemma ExtendsThrough(acc: Entries, next: Entries, r: Result<Parsed<Entries>>)
    requires KeysExtend(acc, next) && (r.Ok? ==> KeysExtend(next, r.value.val))
    ensures r.Ok? ==> KeysExtend(acc, r.value.val)
  {
    if r.Ok? {
      KeysExtendTrans(acc, next, r.value.val);
    }
  }

  // ----- A whole dictionary: first-appearance order, last value wins -----

  /** The keys of `d`, in order. */
  function Keys(d: Entries): (r: seq<string>)
    ensures |r| == |d| && forall i :: 0 <= i < |d| ==> r[i] == d[i].0
  {
    if |d| == 0 then [] else Keys(d[..|d| - 1]) + [d[|d| - 1].0]
  }

  /** `ks` without the repeats of earlier elements: its elements in the order
      of their first appearance. */
  function FirstAppearances(ks: seq<string>): (r: seq<string>)
    ensures forall x :: x in r <==> x in ks
    ensures forall i, j :: 0 <= i < j < |r| ==> r[i] != r[j]
  {
    if |ks| == 0 then []
    else
      var init := ks[..|ks| - 1];
      assert ks == init + [ks[|ks| - 1]];
      if ks[|ks| - 1] in init then FirstAppearances(init)
      else FirstAppearances(init) + [ks[|ks| - 1]]
  }

  /** The pairs `ps` stored into `d` one after the other, as the loop of
      `parse_dictionary` stores them. */
  function InsertAll(d: Entries, ps: seq<(string, Value)>): Entries {
    if |ps| == 0 then d
    else Insert(InsertAll(d, ps[..|ps| - 1]), ps[|ps| - 1].0, ps[|ps| - 1].1)
  }

  /** The keys after one store: unchanged for a key already present, one more
      at the end for a new key. */
  lemma KeysInsert(d: Entries, key: string, v: Value)
    ensures key in Keys(d) ==> Keys(Insert(d, key, v)) == Keys(d)
    ensures key !in Keys(d) ==> Keys(Insert(d, key, v)) == Keys(d) + [key]
  {
    InsertKeepsOrder(d, key, v);
    var r := Insert(d, key, v);
    if key in Keys(d) {
      var i :| 0 <= i < |d| && Keys(d)[i] == key;
      assert KeyIndex(d, key).Some?;
      assert Keys(r) == Keys(d);
    } else {
      assert KeyIndex(d, key).None?;
      assert Keys(r) == Keys(d) + [key];
    }
  }

  /** Storing pairs into an empty dictionary keeps their keys in the order of
      their first appearance. */
  lemma {:induction false} InsertAllKeys(ps: seq<(string, Value)>)
    ensures Keys(InsertAll([], ps)) == FirstAppearances(Keys(ps))
  {
    if |ps| > 0 {
      var init := ps[..|ps| - 1];
      var last := ps[|ps| - 1];
      InsertAllKeys(init);
      KeysInsert(InsertAll([], init), last.0, last.1);
      assert Keys(ps)[..|ps| - 1] == Keys(init);
    }
  }

  /** A key no pair touches reads as before. */
  lemma {:induction false} InsertAllUntouched(d: Entries, ps: seq<(string, Value)>, key: string)
    requires forall i :: 0 <= i < |ps| ==> ps[i].0 != key
    ensures Lookup(InsertAll(d, ps), key) == Lookup(d, key)
  {
    if |ps| > 0 {
      var init := ps[..|ps| - 1];
      assert forall i :: 0 <= i < |init| ==> init[i] == ps[i];
      InsertAllUntouched(d, init, key);
      LookupInsert(InsertAll(d, init), ps[|ps| - 1].0, ps[|ps| - 1].1, key);
    }
  }

  /** A key reads the value of the last pair that stores it. */
  lemma {:induction false} InsertAllLast(d: Entries, ps: seq<(string, Value)>, i: nat)
    requires i < |ps| && forall j :: i < j < |ps| ==> ps[j].0 != ps[i].0
    ensures Lookup(InsertAll(d, ps), ps[i].0) == Some(ps[i].1)
  {
    var init := ps[..|ps| - 1];
    var last := ps[|ps| - 1];
    if i == |ps| - 1 {
      LookupInsert(InsertAll(d, init), last.0, last.1, last.0);
    } else {
      assert init[i] == ps[i];
      forall j | i < j < |init| ensures init[j].0 != init[i].0 {
        assert init[j] == ps[j];
      }
      InsertAllLast(d, init, i);
      LookupInsert(InsertAll(d, init), last.0, last.1, ps[i].0);
    }
  }

  /** Storing one pair and then the rest is storing them all. */
  lemma {:induction false} InsertAllCons(d: Entries, p: (string, Value), rest: seq<(string, Value)>)
    ensures InsertAll(Insert(d, p.0, p.1), rest) == InsertAll(d, [p] + rest)
  {
    if |rest| > 0 {
      var all := [p] + rest;
      assert all[..|all| - 1] == [p] + rest[..|rest| - 1];
      assert all[|all| - 1] == rest[|rest| - 1];
      InsertAllCons(d, p, rest[..|rest| - 1]);
    } else {
      assert [p] + rest == [p];
      assert [p][..0] == [];
    }
  }

  /** The pairs the loop of `parse_dictionary` reads from `pos`, one per entry
      line in the order of the lines, before any of them is stored; the
      cursor stops where `DictFrom` stops. */
  function EntriesRead(ls: seq<View>, k: Table, pos: nat): (r: Result<Parsed<seq<(string, Value)>>>)
    decreases Remaining(ls, pos)
  {
    if pos >= |ls| then Ok(Parsed([], pos))
    else
      match ls[pos].entry
      case Closing => Ok(Parsed([], pos))
      case BadEntry(line) => Err(InvalidDictionary(line))
      case Entry(key, _, f) =>
        match ValueAt(ls, k, pos, f)
        case Err(e) => Err(e)
        case Ok(p) =>
          match EntriesRead(ls, k, p.pos + 1)
          case Err(e) => Err(e)
          case Ok(rest) => Ok(Parsed([(key, p.val)] + rest.val, rest.pos))
  }

  /** `DictFrom` stores, on top of `acc`, exactly the pairs `EntriesRead`
      lists, or fails with the same error. */
  predicate StoresRead(acc: Entries, d: Result<Parsed<Entries>>, read: Result<Parsed<seq<(string, Value)>>>) {
    match read
    case Ok(q) => d == Ok(Parsed(InsertAll(acc, q.val), q.pos))
    case Err(e) => d == Err(e)
  }

  lemma {:induction false} DictFromStoresRead(ls: seq<View>, k: Table, pos: nat, acc: Entries)
    decreases Remaining(ls, pos), 1
    ensures StoresRead(acc, DictFrom(ls, k, pos, acc), EntriesRead(ls, k, pos))
  {
    if pos >= |ls| {
      DictFromEnd(ls, k, pos, acc);
    } else {
      match ls[pos].entry
      case Closing =>
        DictFromStop(ls, k, pos, acc);
      case BadEntry(_) =>
        DictFromBadEntry(ls, k, pos, acc);
      case Entry(key, _, f) =>
        if ValueAt(ls, k, pos, f).Err? {
          DictFromBadValue(ls, k, pos, acc);
        } else {
          var p := ValueAt(ls, k, pos, f).value;
          DictFromEntry(ls, k, pos, acc, p);
          EntryStoresRead(ls, k, pos, acc, p);
          EntriesReadEntry(ls, k, pos, p);
          StoresReadCons(acc, (key, p.val), DictFrom(ls, k, p.pos + 1, Insert(acc, key, p.val)), EntriesRead(ls, k, p.pos + 1));
        }
    }
  }

  /** The rest of the dictionary after one entry. */
  lemma {:induction false} EntryStoresRead(ls: seq<View>, k: Table, pos: nat, acc: Entries, p: Parsed<Value>)
    requires pos < |ls| && ls[pos].entry.Entry? && ValueAt(ls, k, pos, ls[pos].entry.form) == Ok(p)
    decreases Remaining(ls, pos), 0
    ensures var next := Insert(acc, ls[pos].entry.key, p.val);
      StoresRead(next, DictFrom(ls, k, p.pos + 1, next), EntriesRead(ls, k, p.pos + 1))
  {
    DictFromStoresRead(ls, k, p.pos + 1, Insert(acc, ls[pos].entry.key, p.val));
  }

  /** One step of `EntriesRead`. */
  lemma EntriesReadEntry(ls: seq<View>, k: Table, pos: nat, p: Parsed<Value>)
    requires pos < |ls| && ls[pos].entry.Entry? && ValueAt(ls, k, pos, ls[pos].entry.form) == Ok(p)
    ensures EntriesRead(ls, k, pos) == match EntriesRead(ls, k, p.pos + 1)
      case Ok(rest) => Ok(Parsed([(ls[pos].entry.key, p.val)] + rest.val, rest.pos))
      case Err(e) => Err(e)
  {
  }

  lemma StoresReadCons(acc: Entries, pair: (string, Value), d: Result<Parsed<Entries>>, read: Result<Parsed<seq<(string, Value)>>>)
    requires StoresRead(Insert(acc, pair.0, pair.1), d, read)
    ensures StoresRead(acc, d, match read
      case Ok(rest) => Ok(Parsed([pair] + rest.val, rest.pos))
      case Err(e) => Err(e))
  {
    if read.Ok? {
      InsertAllCons(acc, pair, read.value.val);
    }
  }

  /** A whole dictionary read: its keys are the keys of its entry lines in the
      order of their first appearance, each key holds the value of the last
      line that stores it, and no other key is present. */
  lemma DictionaryOrder(ls: seq<View>, k: Table, pos: nat)
    ensures DictFrom(ls, k, pos, []).Ok? ==> EntriesRead(ls, k, pos).Ok?
    ensures DictFrom(ls, k, pos, []).Ok? ==>
      var d := DictFrom(ls, k, pos, []).value.val;
      var ps := EntriesRead(ls, k, pos).value.val;
      DictFrom(ls, k, pos, []).value.pos == EntriesRead(ls, k, pos).value.pos
      && Keys(d) == FirstAppearances(Keys(ps))
      && (forall i :: 0 <= i < |ps| && (forall j :: i < j < |ps| ==> ps[j].0 != ps[i].0) ==> Lookup(d, ps[i].0) == Some(ps[i].1))
      && (forall key :: (forall i :: 0 <= i < |ps| ==> ps[i].0 != key) ==> Lookup(d, key).None?)
  {
    DictFromStoresRead(ls, k, pos, []);
    var r := DictFrom(ls, k, pos, []);
    if r.Ok? {
      var ps := EntriesRead(ls, k, pos).value.val;
      var d := r.value.val;
      assert d == InsertAll([], ps);
      InsertAllKeys(ps);
      forall i | 0 <= i < |ps| && (forall j :: i < j < |ps| ==> ps[j].0 != ps[i].0)
        ensures Lookup(d, ps[i].0) == Some(ps[i].1)
      {
        InsertAllLast([], ps, i);
      }
      forall key | (forall i :: 0 <= i < |ps| ==> ps[i].0 != key) ensures Lookup(d, key).None? {
        InsertAllUntouched([], ps, key);
      }
    }
  }

  // ----- Nested dictionaries -----

  /** `leaf` under `depth` dictionaries, each with the single key `key`. */
  function Nested(key: string, leaf: Value, depth: nat): (v: Value)
    ensures depth > 0 ==> v.Dict? && |v.entries| == 1 && v.entries[0].0 == key
  {
    if depth == 0 then leaf else Dict([(key, Nested(key, leaf, depth - 1))])
  }

  /** The lines from `pos` hold `depth` nested dictionaries under `key` around
      the entry `key => [[s]]`: an entry line `key => {`, the nesting one
      level down, and a terminator; at depth 0 the entry and a terminator. */
  ghost predicate NestedLines(ls: seq<View>, pos: nat, key: string, s: string, depth: nat)
    decreases depth
  {
    pos + 2 * depth + 1 < |ls| && ls[pos].entry.Entry? && ls[pos].entry.key == key
    && ls[pos + 2 * depth + 1].entry.Closing?
    && if depth == 0 then ls[pos].entry.form == Literal(s)
       else ls[pos].entry.form == Opener && NestedLines(ls, pos + 1, key, s, depth - 1)
  }

  /** Dictionaries nest to every depth the model is given and keep their
      leaf: the nested lines read as the text under `depth` dictionaries, with
      the cursor left on the outermost terminator. The interpreter's recursion
      limit is not modelled. */
  lemma {:induction false} NestedEntries(ls: seq<View>, k: Table, pos: nat, key: string, s: string, depth: nat)
    requires NestedLines(ls, pos, key, s, depth)
    decreases depth
    ensures DictFrom(ls, k, pos, []) == Ok(Parsed([(key, Nested(key, Text(s), depth))], pos + 2 * depth + 1))
  {
    var end := pos + 2 * depth + 1;
    var leaf := Nested(key, Text(s), depth);
    if depth == 0 {
      DictFromEntry(ls, k, pos, [], Parsed(Text(s), pos));
      DictFromStop(ls, k, end, [(key, leaf)]);
    } else {
      NestedEntries(ls, k, pos + 1, key, s, depth - 1);
      var inner := [(key, Nested(key, Text(s), depth - 1))];
      var spec := DictFrom(ls, k, pos + 1, []);
      ValueAtOpen(ls, k, pos, spec);
      assert leaf == Dict(inner);
      DictFromEntry(ls, k, pos, [], Parsed(leaf, end - 1));
      DictFromStop(ls, k, end, [(key, leaf)]);
    }
  }
}
