/** `ConfigParser` as a class: one cursor over the input lines and one
    constant table, both updated in place as the parse proceeds. Every method
    is proved to compute the corresponding function of `ConfigModel` from
    the state it starts in. A raised `SyntaxError` is an `Err` result. */
module ConfigParsing {
  import opened Strings
  import opened Patterns
  import opened ConfigModel
  import opened ConfigSteps

  /** `r` and the cursor `pos` are what the specification `spec` computes; on
      an error only the error itself is promised. */
  predicate Follows<T(==)>(r: Result<T>, pos: nat, spec: Result<Parsed<T>>) {
    match spec
    case Ok(p) => r == Ok(p.val) && pos == p.pos
    case Err(e) => r == Err(e)
  }

  /** `ls` holds the view of every line of `c`. The quantifier fires only on
      an explicit `ViewOf(c[i])`, so a proof about one line does not unfold the
      classification of every line it mentions. */
  ghost predicate Linked(c: seq<string>, ls: seq<View>) {
    |ls| == |c| && forall i {:trigger ViewOf(c[i])} :: 0 <= i < |c| ==> ls[i] == ViewOf(c[i])
  }

  lemma LinkedViews(c: seq<string>)
    ensures Linked(c, Views(c))
  {
    forall i | 0 <= i < |c| ensures Views(c)[i] == ViewOf(c[i]) {
    }
  }

  lemma LinkedIsViews(c: seq<string>, ls: seq<View>)
    requires Linked(c, ls)
    ensures ls == Views(c)
  {
    forall i | 0 <= i < |c| ensures ls[i] == Views(c)[i] {
      assert ls[i] == ViewOf(c[i]);
    }
  }

  /** What the top-level guard sees of line `i`. */
  lemma StatementAt(c: seq<string>, ls: seq<View>, i: nat)
    requires Linked(c, ls) && i < |c|
    ensures ls[i].line == Strip(c[i]) && ls[i].statement == IsStatementStart(Strip(c[i]))
  {
    assert ls[i] == ViewOf(c[i]);
  }

  /** What `parse_assignment` sees of line `i`. */
  lemma AssignmentAt(c: seq<string>, ls: seq<View>, i: nat)
    requires Linked(c, ls) && i < |c|
    ensures ls[i].line == Strip(c[i]) && ls[i].assignment == ReadAssignment(Strip(c[i]))
  {
    assert ls[i] == ViewOf(c[i]);
  }

  /** What the dictionary loop sees of line `i`. */
  lemma EntryLineAt(c: seq<string>, ls: seq<View>, i: nat)
    requires Linked(c, ls) && i < |c|
    ensures ls[i].entry == ReadEntry(c[i])
  {
    assert ls[i] == ViewOf(c[i]);
  }

  /** The form an entry line carries is what `parse_value` makes of its text. */
  lemma EntryFormAt(c: seq<string>, ls: seq<View>, i: nat)
    requires Linked(c, ls) && i < |c| && ls[i].entry.Entry?
    ensures ls[i].entry.form == ReadValue(ls[i].entry.text)
  {
    EntryLineAt(c, ls, i);
  }

  class ConfigParser {
    /** The input lines, never changed. */
    const content: seq<string>
    /** What the line classifier makes of each input line. */
    ghost const views: seq<View>
    /** The index of the line being read. */
    var position: nat
    /** The constants defined so far. */
    var constants: Table

    ghost predicate Valid() {
      Linked(content, views)
    }

    constructor (fileContent: seq<string>)
      ensures Valid() && content == fileContent && views == Views(fileContent)
      ensures position == 0 && constants == map[]
    {
      content := fileContent;
      views := Views(fileContent);
      position := 0;
      constants := map[];
      LinkedViews(fileContent);
    }

    /** `parse`: the blocks of the whole input. On a fresh parser this is
        `ParseDocument(content)`. */
    method Parse() returns (r: Result<seq<Assignment>>)
      requires Valid()
      modifies this
      ensures old(position) == 0 && old(constants) == map[] ==> r == ParseDocument(content)
      ensures match BlocksFrom(views, old(constants), old(position), [])
        case Ok(s) => r == Ok(s.blocks) && constants == s.constants && position == s.pos
        case Err(e) => r == Err(e)
    {
      LinkedIsViews(content, views);
      r := ParseBlocks();
    }

    /** `parse_blocks`: one assignment per top-level statement, in order. */
    method ParseBlocks() returns (r: Result<seq<Assignment>>)
      requires Valid()
      modifies this
      ensures match BlocksFrom(views, old(constants), old(position), [])
        case Ok(s) => r == Ok(s.blocks) && constants == s.constants && position == s.pos
        case Err(e) => r == Err(e)
    {
      ghost var goal := BlocksFrom(views, constants, position, []);
      var blocks: seq<Assignment> := [];
      while position < |content|
        invariant BlocksFrom(views, constants, position, blocks) == goal
        decreases |content| - position
      {
        var line := Strip(content[position]);
        StatementAt(content, views, position);
        if !IsStatementStart(line) {
          BlocksFromBadLine(views, constants, position, blocks);
          return Err(UnexpectedSyntax(line));
        }
        ghost var at, table := position, constants;
        var a := ParseAssignment(line);
        if a.Err? {
          BlocksFromBadAssignment(views, table, at, blocks);
          return Err(a.error);
        }
        ghost var p, done := Parsed(a.value, position), blocks;
        blocks := blocks + [a.value];
        position := position + 1;
        BlocksFromStep(views, table, at, done, p);
      }
      BlocksFromEnd(views, constants, position, blocks);
      return Ok(blocks);
    }

    /** The regular-expression work of `parse_assignment` on the stripped line
        under the cursor: the assignment shape it finds there. */
    method ReadAssignmentLine(line: string) returns (a: AssignLine)
      requires Valid() && position < |content| && line == Strip(content[position])
      ensures a == views[position].assignment && line == views[position].line
      ensures a.AssignValue? ==> a.form == ReadValue(a.text)
    {
      a := ReadAssignment(line);
      AssignmentAt(content, views, position);
    }

    /** The first steps of each round of the `parse_dictionary` loop: strip
        the line under the cursor and match it against the terminators and
        the entry pattern. */
    method ReadEntryLine() returns (e: EntryLine)
      requires Valid() && position < |content|
      ensures e == views[position].entry
    {
      e := ReadEntry(content[position]);
      EntryLineAt(content, views, position);
    }

    /** `parse_assignment(line)` on the stripped line under the cursor: on
        success the table binds the assigned name to exactly the value the
        returned block carries; every error is raised before the table is
        written, so on an error the table is unchanged. */
    method ParseAssignment(line: string) returns (r: Result<Assignment>)
      requires Valid() && position < |content| && line == Strip(content[position])
      modifies this
      ensures match Assign(views, old(constants), old(position))
        case Ok(p) =>
          r == Ok(p.val) && position == p.pos
          && constants == old(constants)[p.val.name := p.val.value]
        case Err(e) => r == Err(e) && constants == old(constants)
    {
      var a := ReadAssignmentLine(line);
      match a
      case BadAssignment =>
        return Err(InvalidAssignment(line));
      case AssignOpen(name) =>
        AssignOpenStep(views, constants, position, DictFrom(views, constants, position + 1, []));
        position := position + 1;
        var d := ParseDictionary();
        if d.Err? {
          return Err(d.error);
        }
        constants := constants[name := Dict(d.value)];
        return Ok(Assignment(name, Dict(d.value)));
      case AssignRef(name, constName) =>
        AssignRefStep(views, constants, position);
        if constName !in constants {
          return Err(UndefinedConstant(constName));
        }
        constants := constants[name := constants[constName]];
        return Ok(Assignment(name, constants[constName]));
      case AssignValue(name, value, _) =>
        AssignValueStep(views, constants, position, ValueAt(views, constants, position, ReadValue(value)));
        var v := ParseValue(value);
        if v.Err? {
          return Err(v.error);
        }
        constants := constants[name := v.value];
        return Ok(Assignment(name, constants[name]));
    }

    /** `parse_dictionary`: the entries up to the closing line, with the cursor
        left on that line. It never changes the constant table. */
    method ParseDictionary() returns (r: Result<Entries>)
      requires Valid()
      modifies this
      decreases Remaining(views, position), 3
      ensures constants == old(constants)
      ensures Follows(r, position, DictFrom(views, old(constants), old(position), []))
    {
      ghost var start, table := position, constants;
      var dictionary: Entries := [];
      while position < |content|
        invariant constants == table && position >= start
        invariant DictFrom(views, table, position, dictionary) == DictFrom(views, table, start, [])
        decreases |content| - position
      {
        var e := ReadEntryLine();
        if e.Closing? {
          DictFromStop(views, table, position, dictionary);
          break;
        } else if e.BadEntry? {
          DictFromBadEntry(views, table, position, dictionary);
          return Err(InvalidDictionary(e.line));
        }
        var next := ParseEntry(dictionary, e);
        if next.Err? {
          return Err(next.error);
        }
        dictionary := next.value;
        position := position + 1;
      }
      if position >= |content| {
        DictFromEnd(views, table, position, dictionary);
      }
      return Ok(dictionary);
    }

    /** `dictionary[key] = self.parse_value(value.strip())` for the entry line
        under the cursor: the entries with the key bound to the value read,
        and the cursor on the last line of that value; this is one step of
        `DictFrom`. */
    method ParseEntry(dictionary: Entries, e: EntryLine) returns (r: Result<Entries>)
      requires Valid() && position < |content| && e == views[position].entry && e.Entry?
      modifies this
      decreases Remaining(views, position), 2
      ensures constants == old(constants)
      ensures r.Ok? ==> var p := ValueAt(views, constants, old(position), e.form);
        p.Ok? && position == p.value.pos && r.value == Insert(dictionary, e.key, p.value.val)
      ensures r.Err? ==> ValueAt(views, constants, old(position), e.form) == Err(r.error)
      ensures r.Ok? ==> position >= old(position)
      ensures r.Ok? ==> DictFrom(views, constants, old(position), dictionary) == DictFrom(views, constants, position + 1, r.value)
      ensures r.Err? ==> DictFrom(views, constants, old(position), dictionary) == Err(r.error)
    {
      EntryFormAt(content, views, position);
      ghost var at := position;
      var v := ParseValue(e.text);
      if v.Err? {
        DictFromBadValue(views, constants, at, dictionary);
        return Err(v.error);
      }
      DictFromEntry(views, constants, at, dictionary, Parsed(v.value, position));
      return Ok(Insert(dictionary, e.key, v.value));
    }

    /** `parse_value(text)`: a scalar, a resolved reference or, after `{`, a
        nested dictionary read from the next line on. */
    method ParseValue(text: string) returns (r: Result<Value>)
      requires Valid()
      modifies this
      decreases Remaining(views, position), if position < |content| then 1 else 5
      ensures constants == old(constants)
      ensures Follows(r, position, ValueAt(views, old(constants), old(position), ReadValue(text)))
    {
      var form := ReadValue(text);
      if form.Opener? {
        r := ParseNested();
      } else {
        r := Resolve(form);
      }
    }

    /** The scalar branches of `parse_value`: an integer, a `[[...]]` text, a
        reference looked up in the table, or the invalid-value error. Neither
        the cursor nor the table moves. */
    method Resolve(form: ValueForm) returns (r: Result<Value>)
      requires !form.Opener?
      ensures Follows(r, position, ValueAt(views, constants, position, form))
    {
      match form
      case Number(n) =>
        return Ok(Int(n));
      case Literal(s) =>
        return Ok(Text(s));
      case Reference(constName) =>
        if constName !in constants {
          return Err(UndefinedConstant(constName));
        }
        return Ok(constants[constName]);
      case Invalid(v) =>
        return Err(InvalidValue(v));
    }

    /** The `{` branch of `parse_value`: step onto the next line and read the
        nested dictionary from there. */
    method ParseNested() returns (r: Result<Value>)
      requires Valid()
      modifies this
      decreases Remaining(views, position), if position < |content| then 0 else 4
      ensures constants == old(constants)
      ensures Follows(r, position, ValueAt(views, old(constants), old(position), Opener))
    {
      ValueAtOpen(views, constants, position, DictFrom(views, constants, position + 1, []));
      position := position + 1;
      var d := ParseDictionary();
      if d.Err? {
        return Err(d.error);
      }
      return Ok(Dict(d.value));
    }
  }
}
