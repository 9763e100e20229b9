# ConfigParser, modelled and proved in Dafny

This project models `ConfigParser` from `config_language.py`. It parses a
small configuration language, one input line at a time:

- `name := value;` binds a constant;
- `name := {` opens a dictionary of `key => value,` lines, closed by `}`, `};` or `},`;
- a value is an integer, a `[[text]]` literal, a `|name|` reference to an
  earlier constant, or `{`, which opens a nested dictionary.

The parser keeps a cursor (`position`) over the lines and a table of the
constants defined so far. Each top-level assignment becomes one block. A
reference is replaced by the constant's value as soon as it is read. The
first malformed line raises a `SyntaxError`.

Modules:

- `Strings` (strings.dfy): the Python `str` operations the parser uses:
  `strip`, `rstrip`, `startswith`, `endswith`, `in`, and `int` on decimal
  digits.
- `Patterns` (patterns.dfy): the regular expressions, written out as
  functions. Each gives what `re.match` finds. There are round-trip lemmas
  for the texts each pattern is meant to recognise.
- `ConfigModel` (model.dfy): the parse tree, the errors and their messages,
  and dictionaries in insertion order. It also holds what the parser makes
  of one line: its `View`.
  - `ValueAt`, `DictFrom`, `Assign` and `BlocksFrom` are the meaning of
    `parse_value`, `parse_dictionary`, `parse_assignment` and
    `parse_blocks`. Each is a function of the line views, the constant table
    and the cursor.
- `ConfigSteps` (steps.dfy): one step of each loop, stated as an equation
  between those functions.
- `ConfigParsing` (parser.dfy): the class `ConfigParser`. Its `position` and
  `constants` fields are updated in place by methods that follow the Python
  ones. Each method is proved to compute the corresponding function from the
  state it starts in.
- `ValueReading` and `LineReading` (values.dfy, lines.dfy): what the parser
  makes of each kind of value text and each kind of line.
- `DictProperties`, `DocumentProperties` and `ErrorProperties` (dicts.dfy,
  document.dfy, errors.dfy): the properties the parser promises.
- `Scenarios` and `NestedScenario` (scenarios.dfy, nested.dfy): the
  constant-evaluation and nested-dictionaries examples from the tests, for
  any names, any integer and any texts.

Three behaviours of the code are easy to miss, and the model keeps them:

- A dictionary whose closing line is missing is not an error. The parse
  succeeds with the entries read before the input ran out
  (`UnterminatedAccepted`).
- A duplicate key keeps the position of its first insertion and takes the
  last value, as a Python `dict` does (`LookupInsert`, `InsertKeepsOrder`,
  `DictionaryOrder`).
- Integers have no width: any run of decimal digits is read as the integer
  it denotes, as Python's `int` does, with no 64-bit range check.

## Model

| member | source | states |
|---|---|---|
| ConfigParsing.ConfigParser.constructor | config_language.py:7-10 | the parser starts on line 0 with an empty constant table over the given lines |
| ConfigParsing.ConfigParser.Parse | config_language.py:12-13 | on a fresh parser the result is `ParseDocument(content)`; in general it is what `BlocksFrom` gives from the current cursor and table, with the final cursor and table |
| ConfigParsing.ConfigParser.ParseBlocks | config_language.py:15-24 | the loop computes `BlocksFrom` from the starting state: the blocks in order, the final table and cursor, or the first error |
| ConfigParsing.ConfigParser.ParseAssignment | config_language.py:26-46 | the result is `Assign` of the old state; on success the new cursor is the one `Assign` gives and the table binds the assigned name to exactly the value of the returned block; on an error the table is unchanged |
| ConfigParsing.ConfigParser.ParseDictionary | config_language.py:48-62 | the loop computes `DictFrom` from the starting cursor: the entries up to the closing line, with the cursor left on it; the table is unchanged |
| ConfigParsing.ConfigParser.ParseEntry | config_language.py:55-58 | on success the cursor is exactly where `ValueAt` leaves it and the dictionary is the old one with the key set to the value read (appended if new, replaced in place if present); otherwise the error is `ValueAt`'s |
| ConfigParsing.ConfigParser.ParseValue | config_language.py:64-80 | the result and the new cursor are `ValueAt` of the old cursor and the value's reading; the table is unchanged |
| ConfigParsing.ConfigParser.ParseNested | config_language.py:76-78 | `{` moves to the next line and reads a nested dictionary from there |
| ConfigModel.ValueAt | config_language.py:64-80 | the cursor never moves back, and it moves forward only for a nested dictionary |
| ConfigModel.DictFrom | config_language.py:48-62 | the cursor never moves back, and when it stops inside the input it stops on a closing line |
| ConfigModel.Assign | config_language.py:26-46 | the cursor never moves back |
| ConfigModel.BlocksFrom | config_language.py:15-24 | a successful parse has consumed every line |
| ConfigModel.MessageInjective | config_language.py:82-83 | distinct errors have distinct messages: the kind and the quoted text can be read back |
| ConfigModel.KeyIndex | config_language.py:58 | a key is found at its first occurrence, and not found exactly when no entry has it |
| ConfigModel.Insert | config_language.py:58 | a new key is appended; a present key keeps its position and takes the new value |
| Strings.Strip | config_language.py:18 | `strip()` removes the leading and trailing whitespace runs and nothing else |
| Strings.TrimEnd | config_language.py:57 | `rstrip(chars)` removes exactly the trailing run of those characters |
| Strings.DecimalRoundTrip | config_language.py:67 | `int` of the decimal text of `n` is `n` |
| Patterns.MatchBinding | config_language.py:27 | a match starts with an identifier at the front of the line and captures a non-empty value with no line feed; a line not starting with a letter never matches |
| Patterns.MatchHasOperator | config_language.py:27 | a line matches only if the operator occurs in it |
| Patterns.StatementGuard | config_language.py:19 | the top-level guard holds exactly when the line ends with `;`, starts with `{`, or has `:` directly followed by `=` |
| Patterns.IsTerminator | config_language.py:52 | a closing line matches neither the entry pattern nor the assignment pattern |
| Patterns.IntegerLiteral | config_language.py:66-67 | an integer reading needs a non-empty text starting with a digit |
| Patterns.TextLiteral | config_language.py:68-69 | a text reading needs a text starting with `[[` and is four characters shorter |
| Patterns.ReferenceName | config_language.py:35-36 | a reference needs a text that starts and ends with `\|`, and is that text without those two bars; `parse_value` applies the same test |
| Patterns.ValueTestsExclusive | config_language.py:64-80 | the integer, text, reference and `{` tests of `parse_value` never accept the same text, so their order does not matter |
| Strings.ContainsPair | config_language.py:19 | a line contains a two-character text exactly when the two characters stand next to each other somewhere in it |
| Patterns.MatchAssignment | config_language.py:27 | a match captures an identifier that starts the line and a non-empty value with no line feed |
| Patterns.MatchEntry | config_language.py:54 | a match captures an identifier that starts the line and a non-empty value with no line feed |
| Patterns.CaptureValue | config_language.py:27 | `\s*(.+)` fails exactly when only line feeds remain; otherwise it captures a non-empty text with no line feed |
| Patterns.MatchBindingOf | config_language.py:27 | `name op value`, with any spaces around the operator, is matched with exactly that name and value |
| Patterns.IntegerLiteralOf | config_language.py:66-67 | the decimal text of `n` reads as the integer `n` |
| Patterns.TextLiteralOf | config_language.py:68-69 | `[[s]]` reads as `s` verbatim |
| Patterns.ReferenceNameOf | config_language.py:70-71 | `\|name\|` reads as a reference to `name` |
| ValueReading.ReadInteger | config_language.py:65-67 | digits followed by any number of `;` are the integer the digits denote |
| ValueReading.ReadNumber | config_language.py:65-67 | the decimal text of `n`, with or without `;`, reads as `n` |
| ValueReading.ReadText | config_language.py:65-69 | `[[s]]` followed by any number of `;` is the text `s` verbatim |
| ValueReading.ReadReference | config_language.py:65-71 | `\|name\|` followed by any number of `;` refers to `name` |
| ValueReading.ReadOpener | config_language.py:65-76 | `{` followed by any number of `;` opens a nested dictionary |
| ValueReading.ReadWord | config_language.py:79-80 | a word is none of the value forms; it is rejected and quoted without its trailing `;` |
| LineReading.ViewIndent | config_language.py:18 | an indented line is read exactly as the same line without its indentation |
| LineReading.WordNotStatement | config_language.py:19-22 | a bare word fails the top-level guard |
| LineReading.AssignmentLine | config_language.py:19-29 | `name := value` passes the guard and its pattern captures exactly that name and value |
| LineReading.OpenLine | config_language.py:30-32 | `name := {` opens a dictionary for `name` |
| LineReading.CopyLine | config_language.py:35-36 | `name := \|other\|` copies the constant `other` |
| LineReading.ValueLine | config_language.py:42-43 | any other value text goes to `parse_value` whole, with its trailing `;` |
| LineReading.EntryLineOf | config_language.py:54-58 | `key => value` with trailing commas is an entry with that key, and its value text has the commas removed |
| LineReading.NumberEntry | config_language.py:54-58 | `key => N,` stores the integer `N` |
| LineReading.ReferenceEntry | config_language.py:54-58 | `key => \|name\|,` refers to the constant `name` |
| LineReading.AssignmentPassesGuard | config_language.py:18-27 | a line the assignment pattern accepts always passes the top-level guard |
| LineReading.LiteralText | config_language.py:68-69 | `[[s]]` is a trimmed one-line value text that reads as the text `s` |
| LineReading.LiteralEntry | config_language.py:54-58 | `key => [[s]],` stores the text `s` under `key` |
| LineReading.OpenEntry | config_language.py:54-58 | `key => {` is an entry whose value opens a nested dictionary |
| LineReading.ClosingLine | config_language.py:52 | `}`, `};` and `},` close a dictionary however they are indented |
| DictProperties.LookupInsert | config_language.py:58 | after `dictionary[key] = v`, reading `key` gives `v` and every other key reads as before |
| DictProperties.InsertKeepsOrder | config_language.py:58 | insertion keeps every key in place; a new key goes last, a present key keeps its position |
| DictProperties.InsertDistinct | config_language.py:58 | insertion never creates a second entry for a key |
| DictProperties.ValueAtWellFormed | config_language.py:64-80 | every value read has distinct keys in each of its dictionaries, at any depth |
| DictProperties.DictFromWellFormed | config_language.py:48-62 | every dictionary read has distinct keys, at any depth |
| DictProperties.DictFromKeepsOrder | config_language.py:48-62 | entries read so far keep their keys in place: the dictionary being filled only ever grows at its end or overwrites values |
| DictProperties.InsertAllKeys | config_language.py:58 | storing a list of pairs one after another leaves the keys in the order of their first appearance in the list |
| DictProperties.DictionaryOrder | config_language.py:48-62 | a whole dictionary read from the lines has, as keys, the keys of its entry lines in order of first appearance, each holding the value of its last entry line, and no other keys |
| DocumentProperties.DocumentWellFormed | config_language.py:15-24 | every parsed document has distinct keys in every dictionary at every depth, in its blocks and in its constant table |
| DictProperties.NestedEntries | config_language.py:76-78 | dictionaries nest to every depth `depth`: `depth` nested `key => {` lines around `key => [[s]]` give `s` under `depth` dictionaries, with the cursor on the outermost closing line |
| DocumentProperties.BindLatest | config_language.py:33 | in the table after a run of assignments, each name holds the value of its last assignment |
| DocumentProperties.BindUntouched | config_language.py:38 | a name no assignment touches keeps its binding, or stays unbound |
| DocumentProperties.BlocksFromShape | config_language.py:15-24 | blocks already read are never changed, and the final table is the starting table updated by the new blocks in order |
| DocumentProperties.DictionaryClosed | config_language.py:23 | a top-level dictionary ends on its closing line or at the end of the input, and the next block is read from the line after it |
| DocumentProperties.ParseConstants | config_language.py:43 | after a successful parse, each assigned name holds the value of its last block, and only assigned names are bound |
| ErrorProperties.BareWordRejected | config_language.py:19-22 | a bare word at the top level fails the parse with `Unexpected syntax`, whatever follows |
| ErrorProperties.NoAssignmentRejected | config_language.py:45-46 | `word;` passes the guard but fails with `Invalid assignment syntax` |
| ErrorProperties.UndefinedCopyRejected | config_language.py:37-41 | a first-line copy of a constant fails with `Undefined constant`, because nothing is defined yet |
| ErrorProperties.InvalidValueRejected | config_language.py:79-80 | `name := word;` fails with `Invalid value: word` |
| ErrorProperties.BadEntryRejected | config_language.py:59-60 | a bare word inside a dictionary fails with `Invalid dictionary syntax` |
| ErrorProperties.UndefinedEntryRejected | config_language.py:72-75 | an entry that refers to an undefined constant fails with `Undefined constant` |
| ErrorProperties.UnterminatedAccepted | config_language.py:50-62 | a dictionary without a closing line is accepted with the entries read before the input ran out |
| Scenarios.ConstantEvaluation | test_config_language.py:123-143 | the constant, its copy and the dictionary entry that refers to it all carry the same integer |
| NestedScenario.NestedDictionaries | test_config_language.py:95-120 | a text three dictionaries deep sits under its four keys, and an entry after the three closing `},` lines is the second entry of the outermost dictionary |

## Left out

- `ConfigToXML` (config_language.py:86-117) and `main` (config_language.py:118-147) are not part of this model. They cover XML output, command-line arguments and file I/O.
- `Strings.IsDigit`: digits are ASCII only. Python's `\d` and `int` also accept the other Unicode decimal digits. Whitespace (`Strings.IsSpace`) is the full set `str.strip()` and `\s` share.
- `ValueReading.ReadInteger`: does not model CPython's default limit of 4300 digits on `int()` of a text; a longer run of digits raises `ValueError` there and is read as its integer here.
- `Patterns.MatchAssignment`, `Patterns.MatchEntry`: the two regular expressions are written out by hand. General `re` matching is not modelled.
- `ConfigParsing.ConfigParser.ParseBlocks`: on an error, only the error is stated. The cursor and the table are left unspecified, because the raised `SyntaxError` ends the parse and the caller discards the parser.
- `ConfigParsing.ConfigParser.ParseDictionary`: on an error, only the error is stated; the cursor is left unspecified.
- `ConfigParsing.ConfigParser.ParseValue`: on an error, only the error is stated; the cursor is left unspecified.
- `ConfigParsing.ConfigParser.ParseAssignment`: on an error, the error and the unchanged table are stated; the cursor is left unspecified.
- `ConfigParsing.ConfigParser.ParseEntry`: on an error, only the error and the unchanged table are stated; the cursor is left unspecified.
- `ConfigParsing.ConfigParser.ParseNested`: on an error, only the error and the unchanged table are stated; the cursor is left unspecified.
- `DictProperties.NestedEntries`, `ConfigModel.ValueAt`, `ConfigModel.DictFrom`: each nesting level is one more pair of recursive Python calls (`parse_dictionary` calling `parse_value` calling `parse_dictionary`), so CPython's default recursion limit of 1000 frames ends a document nested a few hundred levels deep with `RecursionError`. The model has no such limit and reads any depth.
- `Scenarios.ConstantEvaluation`, `NestedScenario.NestedDictionaries`: only the constant-evaluation and nested-dictionaries tests are replayed as whole documents. The application-settings and car-specifications tests are not; each kind of line they contain is covered by a line lemma (`ValueLine`, `OpenLine`, `NumberEntry`, `LiteralEntry`, `ReferenceEntry`, `OpenEntry`, `ClosingLine`), and their shape, nested dictionaries followed by sibling entries, by `NestedDictionaries`. The XML checks of all the tests are left out.
- The constant table is a `map`; Python's `dict` also keeps the order of the constants, which the parser never observes.
