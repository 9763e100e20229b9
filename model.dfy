/** The parse tree of the configuration language and the meaning of
    `ConfigParser` as functions of the input lines, the constant table and the
    cursor. The class in module `ConfigParsing` is proved to compute exactly
    these functions. */
module ConfigModel {
  import opened Strings
  import opened Patterns

  /** A fully resolved value: the parser substitutes references as it reads
      them, so no reference survives into the tree. */
  datatype Value =
    | Int(n: int)
    | Text(s: string)
    | Dict(entries: seq<(string, Value)>)

  /** A dictionary in insertion order, as Python's `dict` keeps it. */
  type Entries = seq<(string, Value)>

  /** `ConfigParser.constants`. */
  type Table = map<string, Value>

  /** One top-level block `{"type": "assignment", "name": ..., "value": ...}`. */
  datatype Assignment = Assignment(name: string, value: Value)

  /** The `SyntaxError`s the parser raises, with the text each one quotes. */
  datatype Error =
    | UnexpectedSyntax(line: string)
    | InvalidAssignment(line: string)
    | InvalidDictionary(line: string)
    | InvalidValue(text: string)
    | UndefinedConstant(name: string)

  datatype Result<T> = Ok(value: T) | Err(error: Error)

  /** A result together with where the cursor (`self.position`) stands afterwards. */
  datatype Parsed<T> = Parsed(val: T, pos: nat)

  /** The parser's state when `parse_blocks` returns. */
  datatype Session = Session(blocks: seq<Assignment>, constants: Table, pos: nat)

  const ErrorPrefixes: seq<string> := [
    "Unexpected syntax: ", "Invalid assignment syntax: ", "Invalid dictionary syntax: ",
    "Invalid value: ", "Undefined constant: "]

  function Kind(e: Error): (k: nat)
    ensures k < |ErrorPrefixes|
  {
    match e
    case UnexpectedSyntax(_) => 0
    case InvalidAssignment(_) => 1
    case InvalidDictionary(_) => 2
    case InvalidValue(_) => 3
    case UndefinedConstant(_) => 4
  }

  function Quoted(e: Error): string {
    match e
    case UnexpectedSyntax(line) => line
    case InvalidAssignment(line) => line
    case InvalidDictionary(line) => line
    case InvalidValue(text) => text
    case UndefinedConstant(name) => name
  }

  /** The message `ConfigParser.error` raises: a fixed prefix per kind of error
      followed by the offending text. */
  function Message(e: Error): (m: string)
    ensures StartsWith(m, ErrorPrefixes[Kind(e)])
    ensures m[|ErrorPrefixes[Kind(e)]|..] == Quoted(e)
  {
    ErrorPrefixes[Kind(e)] + Quoted(e)
  }

  /** The kind of error a message reports, read from its characters at
      positions 0, 2 and 8, where any two of the prefixes differ. */
  function KindOf(m: string): (k: nat)
    ensures k < |ErrorPrefixes|
  {
    if |m| <= 8 then 0
    else if m[0] == 'U' then (if m[2] == 'e' then 0 else 4)
    else if m[8] == 'a' then 1
    else if m[8] == 'd' then 2
    else 3
  }

  lemma MessageKind(e: Error)
    ensures KindOf(Message(e)) == Kind(e)
  {
    var p := ErrorPrefixes[Kind(e)];
    assert Message(e)[..|p|] == p;
  }

  /** The message tells the errors apart: its kind and its quoted text can be
      read back from it. */
  lemma MessageInjective(e1: Error, e2: Error)
    requires Message(e1) == Message(e2)
    ensures e1 == e2
  {
    MessageKind(e1);
    MessageKind(e2);
    assert Quoted(e1) == Quoted(e2);
  }

  // ----- Dictionaries -----

  /** Where key `k` stands in `d`, if it is there. */
  function KeyIndex(d: Entries, k: string): (r: Option<nat>)
    ensures r.Some? ==> r.value < |d| && d[r.value].0 == k
    ensures r.Some? ==> forall j :: 0 <= j < r.value ==> d[j].0 != k
    ensures r.None? ==> forall j :: 0 <= j < |d| ==> d[j].0 != k
  {
    if |d| == 0 then None
    else if d[0].0 == k then Some(0)
    else match KeyIndex(d[1..], k)
      case None => None
      case Some(i) => Some(i + 1)
  }

  /** Python's `dictionary[key]` read. */
  function Lookup(d: Entries, k: string): (r: Option<Value>)
    ensures r.Some? <==> KeyIndex(d, k).Some?
    ensures r.Some? ==> r.value == d[KeyIndex(d, k).value].1
  {
    match KeyIndex(d, k)
    case None => None
    case Some(i) => Some(d[i].1)
  }

  /** Python's `dictionary[key] = value`: a new key goes to the end, a key
      already present keeps its place and takes the new value. */
  function Insert(d: Entries, k: string, v: Value): (r: Entries)
    ensures KeyIndex(d, k).None? ==> r == d + [(k, v)]
    ensures KeyIndex(d, k).Some? ==> r == d[KeyIndex(d, k).value := (k, v)]
  {
    if |d| == 0 then [(k, v)]
    else if d[0].0 == k then [(k, v)] + d[1..]
    else [d[0]] + Insert(d[1..], k, v)
  }

  predicate DistinctKeys(d: Entries) {
    forall i, j :: 0 <= i < j < |d| ==> d[i].0 != d[j].0
  }

  // ----- The line classifier: what each line and each value text is -----

  /** What `parse_value` makes of its text once trailing `;` are dropped. */
  datatype ValueForm =
    | Number(n: nat)
    | Literal(s: string)
    | Reference(name: string)
    | Opener
    | Invalid(v: string)

  /** The tests of `parse_value`, in the order it makes them: digits,
      `[[...]]`, `|...|`, then `{`. */
  function ReadValue(text: string): ValueForm {
    var v := TrimEnd(text, {';'});
    var number := IntegerLiteral(v);
    var literal := TextLiteral(v);
    var reference := ReferenceName(v);
    if number.Some? then Number(number.value)
    else if literal.Some? then Literal(literal.value)
    else if reference.Some? then Reference(reference.value)
    else if Strip(v) == "{" then Opener
    else Invalid(v)
  }

  /** What `parse_dictionary` makes of one input line: for an entry, the
      text handed to `parse_value` and what `parse_value` makes of it. */
  datatype EntryLine =
    | Closing
    | Entry(key: string, text: string, form: ValueForm)
    | BadEntry(line: string)

  /** The stripped line is a terminator, or an entry whose value text has its
      trailing commas and surrounding spaces removed before `parse_value`
      reads it, or malformed. */
  function ReadEntry(raw: string): (r: EntryLine)
    ensures r.Entry? ==> r.form == ReadValue(r.text)
  {
    var line := Strip(raw);
    if IsTerminator(line) then Closing
    else match MatchEntry(line)
      case None => BadEntry(line)
      case Some((key, value)) =>
        var text := Strip(TrimEnd(value, {','}));
        Entry(key, text, ReadValue(text))
  }

  /** What `parse_assignment` makes of a stripped top-level line. */
  datatype AssignLine =
    | BadAssignment
    | AssignOpen(name: string)
    | AssignRef(name: string, ref: string)
    | AssignValue(name: string, text: string, form: ValueForm)

  /** The captured value, stripped but still carrying any trailing `;`, is
      tested for `{` and for `|name|` before it goes to `parse_value`. */
  function ReadAssignment(line: string): (r: AssignLine)
    ensures r.AssignValue? ==> r.form == ReadValue(r.text)
  {
    match MatchAssignment(line)
    case None => BadAssignment
    case Some((name, raw)) =>
      var v := Strip(raw);
      var reference := ReferenceName(v);
      if v == "{" then AssignOpen(name)
      else if reference.Some? then AssignRef(name, reference.value)
      else AssignValue(name, v, ReadValue(v))
  }

  /** Everything the parser can make of one input line, whichever loop reads
      it: the stripped text, whether it passes the top-level guard, and how it
      reads as an assignment and as a dictionary entry. Each is a pure
      function of the line. */
  datatype View = View(line: string, statement: bool, assignment: AssignLine, entry: EntryLine)

  function ViewOf(raw: string): View {
    var line := Strip(raw);
    View(line, IsStatementStart(line), ReadAssignment(line), ReadEntry(raw))
  }

  /** The views of all input lines, in order. */
  function Views(c: seq<string>): (ls: seq<View>)
    ensures |ls| == |c|
  {
    seq(|c|, i requires 0 <= i < |c| => ViewOf(c[i]))
  }

  // ----- The parser as functions of the line views -----

  /** How many lines are left under the cursor; the parse ends when it is 0. */
  function Remaining(ls: seq<View>, pos: nat): (n: nat)
    ensures n == 0 <==> pos >= |ls|
  {
    if pos < |ls| then |ls| - pos else 0
  }

  /** `parse_value` on a text of form `f`, with the cursor at `pos`: the value
      and the cursor afterwards. A reference is resolved against the table `k`
      at once; `{` moves the cursor to the next line and reads a nested
      dictionary there. */
  function ValueAt(ls: seq<View>, k: Table, pos: nat, f: ValueForm): (r: Result<Parsed<Value>>)
    decreases Remaining(ls, pos), if pos < |ls| then 0 else 2
    ensures r.Ok? ==> r.value.pos >= pos
    ensures r.Ok? && r.value.pos > pos ==> r.value.val.Dict?
  {
    match f
    case Number(n) => Ok(Parsed(Int(n), pos))
    case Literal(s) => Ok(Parsed(Text(s), pos))
    case Reference(name) =>
      if name in k then Ok(Parsed(k[name], pos)) else Err(UndefinedConstant(name))
    case Opener =>
      (match DictFrom(ls, k, pos + 1, [])
       case Ok(d) => Ok(Parsed(Dict(d.val), d.pos))
       case Err(e) => Err(e))
    case Invalid(v) => Err(InvalidValue(v))
  }

  /** The loop of `parse_dictionary` from the cursor `pos`, with `acc` the
      entries read so far. It stops on a terminator line, leaving the cursor
      on it, or when the lines run out. After each entry the cursor moves to
      the line after it (after its nested dictionary's terminator, for a
      nested dictionary). */
  function DictFrom(ls: seq<View>, k: Table, pos: nat, acc: Entries): (r: Result<Parsed<Entries>>)
    decreases Remaining(ls, pos), 1
    ensures r.Ok? ==> r.value.pos >= pos
    ensures r.Ok? && r.value.pos < |ls| ==> ls[r.value.pos].entry.Closing?
  {
    if pos >= |ls| then Ok(Parsed(acc, pos))
    else
      match ls[pos].entry
      case Closing => Ok(Parsed(acc, pos))
      case BadEntry(line) => Err(InvalidDictionary(line))
      case Entry(key, _, f) =>
        match ValueAt(ls, k, pos, f)
        case Err(e) => Err(e)
        case Ok(p) => DictFrom(ls, k, p.pos + 1, Insert(acc, key, p.val))
  }

  /** `parse_assignment` on the line under the cursor `pos`: the block and the
      cursor afterwards. */
  function Assign(ls: seq<View>, k: Table, pos: nat): (r: Result<Parsed<Assignment>>)
    requires pos < |ls|
    ensures r.Ok? ==> r.value.pos >= pos
  {
    match ls[pos].assignment
    case BadAssignment => Err(InvalidAssignment(ls[pos].line))
    case AssignOpen(name) =>
      (match DictFrom(ls, k, pos + 1, [])
       case Ok(d) => Ok(Parsed(Assignment(name, Dict(d.val)), d.pos))
       case Err(e) => Err(e))
    case AssignRef(name, ref) =>
      if ref in k then Ok(Parsed(Assignment(name, k[ref]), pos))
      else Err(UndefinedConstant(ref))
    case AssignValue(name, _, f) =>
      match ValueAt(ls, k, pos, f)
      case Ok(p) => Ok(Parsed(Assignment(name, p.val), p.pos))
      case Err(e) => Err(e)
  }

  /** The loop of `parse_blocks` from `pos`, with the constant table `k` and
      the blocks `acc` read so far. Every line under the cursor must pass the
      statement guard and parse as an assignment, whose value is then bound in
      the table; the cursor moves one line past what the assignment read. */
  function BlocksFrom(ls: seq<View>, k: Table, pos: nat, acc: seq<Assignment>): (r: Result<Session>)
    decreases Remaining(ls, pos)
    ensures r.Ok? ==> r.value.pos >= pos && r.value.pos >= |ls|
  {
    if pos >= |ls| then Ok(Session(acc, k, pos))
    else if !ls[pos].statement then Err(UnexpectedSyntax(ls[pos].line))
    else
      match Assign(ls, k, pos)
      case Err(e) => Err(e)
      case Ok(p) => BlocksFrom(ls, k[p.val.name := p.val.value], p.pos + 1, acc + [p.val])
  }

  /** `ConfigParser(lines).parse()`: a fresh parser, an empty constant table. */
  function ParseDocument(c: seq<string>): Result<seq<Assignment>> {
    match BlocksFrom(Views(c), map[], 0, [])
    case Ok(s) => Ok(s.blocks)
    case Err(e) => Err(e)
  }
}
