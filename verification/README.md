# generate-graphql-operations, the string core

`generate-graphql-operations` is a command-line tool. It reads a GraphQL
schema and, for every root field of the mutation, query and subscription
types, writes a `.graphql` document holding a ready-made operation. It also
writes one barrel file `index.ts` per kind, which exports a `loader(...)`
call for each document.

The operation text comes from two library calls, `buildOperationNodeForField`
and `print`. What the tool itself decides is a handful of string
expressions. This project models those expressions and proves properties of
them:

- **Document normalisation** (`LabelStrip`, `Sigils`). The printed operation
  goes through two regular-expression replacements:
  - `/^([\t\s]*)((?!\().)*(:\s)/gm → '$1'` deletes, on every line,
    everything after the leading white space up to and including the last
    `:` and white space before the first `(`. A field label goes, and so does
    an argument name on its own line: `  id: $id` becomes `  $id`.
    `StripLabels` models it as a scanner with the exact ECMAScript meaning
    of `^` (with `m`), `\s`, `.` and greedy back-tracking. `StripLine` states
    the same thing one line at a time.
  - `/(\$\w)/g → toLowerCase` lower-cases the character after each `$`.
- **Export identifiers** (`Identifier`). The chain is
  `replace(/\.?([A-Z]+)/g, '_' + run)`, then `replace(/^_/, '')`, then
  `toUpperCase()`.
- **Output naming and the barrel file** (`Generator`). This covers:
  - the directory of each kind
  - the path of each document
  - the path relative to the kind's directory (`replace(opsPath, '.')`)
  - the barrel text: `import { loader } from 'graphql.macro'`, a CRLF, then
    the export lines joined by CRLF, in field order
  - which kinds a run produces

`Ascii` holds the ASCII classes and case mapping the expressions use.
`Strings` holds `replace` with a string pattern (searching with `IndexOf`),
`join`, and `split`, which only the proofs use to read a barrel back. The
files a run writes are values (`FileWrite`, `KindOutput`), not effects.

Three behaviours of the code are worth stating on their own:

- `IOStats` gives `IOSTATS`: `[A-Z]+` takes `IOS` as one run, so the run
  gets a single `_` in front of it, which the leading-`_` strip then
  removes (`Identifier.DeriveIOStats`).
- A root type whose field map is empty still gets its directory and a
  barrel file holding only the import line and a CRLF, because an empty
  object is truthy in JavaScript (`Generator.EmptyKind`,
  `Generator.GenerateHasKind`).
- Two fields with the same identifier both get an export line, so nothing
  is overwritten. `userID` and `user_id` both give `USER_ID`
  (`Identifier.DeriveCollision`, `Generator.IndexTextLines`).

## Model

| member | source | states |
|---|---|---|
| Ascii.IsWordChar | src/index.ts:62 | `\w`: an ASCII letter, digit or `_`; it decides which character after `$` the sigil pass lower-cases |
| Ascii.ToLower | src/index.ts:62 | `toLowerCase` on one character: a capital becomes its lower-case letter, 32 code points up; anything else is kept |
| Ascii.ToUpper | src/index.ts:63 | `toUpperCase` on one character: a lower-case letter becomes its capital, 32 code points down; anything else is kept |
| Ascii.UpperString | src/index.ts:63 | `toUpperCase` on ASCII: same length; each character is its upper-case form; no lower-case letter is left; a character changes exactly when it was lower-case |
| Ascii.UpperStringAppend | src/index.ts:63 | upper-casing works piece by piece: the result for `a + b` is the result for `a` followed by the one for `b` |
| Ascii.UpperStringKeepsCount | src/index.ts:63 | upper-casing keeps the number of occurrences of any character that is not a letter |
| Strings.ReplaceFirst | src/index.ts:69 | `replace` with a string pattern: the first occurrence `IndexOf` finds is swapped for the replacement, and a string without one is returned as it is; `Strings.ReplaceFirstAtStart` proves the case line 69 meets |
| Strings.IndexOf | src/index.ts:69 | `indexOf`: the index returned is an occurrence and no earlier index is one; with no result, no index is an occurrence |
| Strings.ReplaceFirstAtStart | src/index.ts:69 | `replace` with a string pattern that opens the string swaps that prefix for the replacement |
| Strings.Join | src/index.ts:69 | `join`: the pieces with the separator between each two neighbours; `Strings.SplitJoin` proves `Split` takes it apart again |
| Strings.SplitJoin | src/index.ts:69-70 | splitting the joined lines at the separator gives back the lines, provided none of them holds the separator's first character |
| LabelStrip.IsLineTerminator | src/index.ts:62 | the four ECMAScript line terminators: `.` does not match them, and `^` under the `m` flag matches after them |
| LabelStrip.IsSpace | src/index.ts:62 | ECMAScript `\s`, WhiteSpace and LineTerminator; `LabelStrip.SpaceEndSpec` proves the greedy run over it |
| LabelStrip.ColonSpaceAt | src/index.ts:62 | `(:\s)` at a position: a `:` followed by one white-space character |
| LabelStrip.SpaceEnd | src/index.ts:62 | the end of the greedy `[\t\s]*` run, which lies between its start and the end of the text; `LabelStrip.SpaceEndSpec` proves it maximal |
| LabelStrip.RunEnd | src/index.ts:62 | the end of the `((?!\().)*` run, which lies between its start and the end of the text; `LabelStrip.RunEndSpec` proves where it stops |
| LabelStrip.LastColonSpace | src/index.ts:62 | where back-tracking lands: a position inside the range when there is one; `LabelStrip.LastColonSpaceSpec` proves it is the last `:` followed by white space |
| LabelStrip.MatchHere | src/index.ts:62 | one attempt of the expression where `^` holds: group 1 is `t[..keepEnd]`, the match is `t[..end]`, and the match takes at least the `:` and one white-space character beyond group 1 |
| LabelStrip.SpaceEndSpec | src/index.ts:62 | `[\t\s]*` is greedy: every character of the run is white space, and the character after it is not |
| LabelStrip.RunEndSpec | src/index.ts:62 | `((?!\().)*` stops exactly at the first `(` or line terminator |
| LabelStrip.LastColonSpaceSpec | src/index.ts:62 | back-tracking lands on the last `:` followed by white space in the run, and none comes after it |
| LabelStrip.StripRest | src/index.ts:62 | the global scan with the `m` flag: at each line start try a match, keep `$1`, resume after the match; the result is never longer than the text, and `LabelStrip.StripLabelsByLines` proves the scan equals per-line stripping |
| LabelStrip.StripLabels | src/index.ts:62 | the label-strip pass never lengthens the text |
| LabelStrip.ParenIndex | src/index.ts:62 | the first `(` of a line, or its length: no `(` comes before it |
| LabelStrip.LastLabel | src/index.ts:62 | the label colon of a line is the last `:` followed by white space before the first `(`, with room for the white space; with none, no such colon exists |
| LabelStrip.StripLine | src/index.ts:62 | one line after the pass: unchanged exactly when it has no label colon, otherwise at least two shorter; the leading white space survives; everything from the first `(` on survives; no character is made up; no `:` is left at the end unless one was there |
| LabelStrip.MatchHereOneLine | src/index.ts:62 | on one line, the expression matches exactly when the line has a label colon; the match keeps the leading white space and ends after the colon and its white space |
| LabelStrip.MatchHereShift | src/index.ts:62 | extra leading white space only shifts where the match lies |
| LabelStrip.StripLabelsOneLine | src/index.ts:62 | on a single line, the scanner gives what the line-by-line statement gives |
| LabelStrip.StripLabelsSplit | src/index.ts:62 | unless a line ends with `:`, that line is stripped on its own, its line break stays, and the rest is stripped as if it stood alone |
| LabelStrip.StripLabelsByLines | src/index.ts:62 | on text with no `:` right before a line break, the scanner equals stripping each line separately and keeping the breaks |
| LabelStrip.StripLineUnchanged | src/index.ts:62 | a line is left alone exactly when no `:` followed by white space stands before its first `(` |
| LabelStrip.StripLabelsUnchanged | src/index.ts:62 | the pass leaves such a text unchanged exactly when every line is unlabelled, for example `user(id: $id) {` |
| LabelStrip.StripLineIdempotent | src/index.ts:62 | a stripped line has nothing left to strip |
| LabelStrip.StripByLinesIdempotent | src/index.ts:62 | stripping line by line twice is the same as once |
| LabelStrip.StripByLinesNoColonBreak | src/index.ts:62 | line-by-line stripping keeps `:` away from line breaks |
| LabelStrip.StripLabelsIdempotent | src/index.ts:62 | on text with no `:` before a line break, the output has none either, and a second pass changes nothing |
| LabelStrip.StripLineLabelled | src/index.ts:62 | ` u: f(x)` becomes ` f(x)` |
| LabelStrip.StripLineArgument | src/index.ts:62 | `  id: $id` becomes `  $id`: an argument name on its own line is deleted like a label |
| LabelStrip.StripLineUnlabelledExample | src/index.ts:62 | `f(x: 1)` is left as it is, because its `:` comes after the first `(` |
| Sigils.SigilChar | src/index.ts:62 | the character the `(\$\w)` pass leaves at a position: lower-cased right after a `$`, kept elsewhere; `Sigils.LowerSigils` proves the scan matches it |
| Sigils.LowerSigils | src/index.ts:62 | the sigil pass keeps the length; each character is lower-cased when a `$` stands before it and otherwise kept |
| Sigils.LowerSigilsChanges | src/index.ts:62 | a character changes exactly when it is an upper-case letter right after a `$` |
| Sigils.LowerSigilsNoUpperAfterSigil | src/index.ts:62 | after the pass, no `$` is followed by an upper-case letter |
| Sigils.LowerSigilsIdempotent | src/index.ts:62 | a second sigil pass changes nothing |
| Sigils.LowerSigilsExamples | src/index.ts:62 | `f(id: $Id)` gives `f(id: $id)`; `$ID` gives `$iD`; `$$A` gives `$$a` |
| Identifier.UpperRunEnd | src/index.ts:63 | `[A-Z]+` is greedy: the run holds only capitals and stops before a non-capital |
| Identifier.UnderscoreFrom | src/index.ts:63 | the global `\.?([A-Z]+)` replacement by `'_' + y`, scanning from an index; `Identifier.UnderscoreFromPieces` proves it equals the character-by-character statement |
| Identifier.UnderscoreFromPieces | src/index.ts:63 | the global `\.?([A-Z]+)` replacement equals the character-by-character statement: a `.` before a run becomes `_`, a run's first capital gets a `_` in front, and everything else is kept |
| Identifier.DropLeadingUnderscore | src/index.ts:63 | `replace(/^_/, '')` removes exactly one leading `_`, and only when there is one |
| Identifier.Derive | src/index.ts:63 | the identifier has no lower-case letter |
| Identifier.DeriveUnderscores | src/index.ts:63 | for a name without dots, the identifier has one `_` more than the name per run of capitals, minus the one leading `_` dropped when the name starts with `_` or a capital |
| Identifier.DeriveKeepsLetters | src/index.ts:63 | for a name without dots, the identifier with its underscores removed is the name with its underscores removed, upper-cased |
| Identifier.DeriveOfName | src/index.ts:63 | a GraphQL name gives an identifier made only of `A-Z`, `0-9` and `_` |
| Identifier.DeriveUserById | src/index.ts:63 | `userById` gives `USER_BY_ID` |
| Identifier.DeriveCreateUser | src/index.ts:63 | `createUser` gives `CREATE_USER` |
| Identifier.DeriveId | src/index.ts:63 | `id` gives `ID` |
| Identifier.DeriveIOStats | src/index.ts:63 | `IOStats` gives `IOSTATS`: one `_` per run of capitals, and it is dropped at the start |
| Identifier.DeriveCollision | src/index.ts:63 | `userID` and `user_id` both give `USER_ID` |
| Identifier.DeriveLeadingUnderscore | src/index.ts:63 | `_foo` gives `FOO` |
| Generator.Directory | src/index.ts:50 | each kind's directory name is non-empty |
| Generator.DirectoryDistinct | src/index.ts:50 | two kinds' directory names start with the same letter exactly when the kinds are the same |
| Generator.OpsPathDistinct | src/index.ts:50 | two kinds have the same output directory exactly when they are the same kind |
| Generator.KindDirectoriesApart | src/index.ts:50 | no path under one kind's directory equals a path under another kind's directory |
| Generator.FieldFileInjective | src/index.ts:61 | two fields of a kind share a document path exactly when their names are equal; no document path is the barrel file's path |
| Generator.RelativeFieldFile | src/index.ts:69 | replacing the directory with `.` turns a document path into `./<field>.graphql` |
| Generator.OpsPath | src/index.ts:50 | `<root>/<directory>`; `Generator.OpsPathDistinct` proves distinct kinds get distinct paths |
| Generator.FieldFile | src/index.ts:61 | `<opsPath>/<field>.graphql`; `Generator.FieldFileInjective` proves it is injective in the field and never the barrel path |
| Generator.IndexFile | src/index.ts:70 | `<opsPath>/index.ts`; `Generator.OperationNotIndex` proves no document of a run lands on any barrel path |
| Generator.RelativePath | src/index.ts:69 | `file.replace(opsPath, '.')`; `Generator.RelativeFieldFile` proves it gives `./<field>.graphql` |
| Generator.EntryOf | src/index.ts:63 | the `{ field, file }` a document's write resolves with: the derived identifier and the document path; `Generator.ExportLineOf` states the line built from it |
| Generator.ExportLine | src/index.ts:69 | `export const <identifier> = loader('<relative path>')`; `Generator.ExportLineOf` proves its exact text for each field |
| Generator.IndexText | src/index.ts:70 | the import line, a CRLF, then the export lines joined by CRLF; `Generator.IndexTextSplit` proves it splits back into those lines |
| Generator.Content | src/index.ts:62 | the document written is never longer than the printed operation |
| Generator.GenerateFilesForFields | src/index.ts:50-70 | a kind writes into its own directory: one document per field, in field order, each at `<dir>/<field>.graphql` holding the normalised text; the barrel file goes to `<dir>/index.ts` and holds the import line, a CRLF and the export lines joined by CRLF. `Generator.ExportLineOf`, `Generator.IndexTextLines`, `Generator.EmptyKind` and `Generator.OperationsDistinct` prove what these files hold and that no two collide |
| Generator.ExportLines | src/index.ts:69 | one export line per field, in field order; `Generator.ExportLineOf` gives each line's text |
| Generator.ExportLineOf | src/index.ts:58-69 | there is one export line per field, and line `i` reads ``export const <Derive(name)> = loader('./<name>.graphql')`` for field `i` |
| Generator.EmptyKind | src/index.ts:69-70 | a kind without fields writes no documents, and its barrel text is the import line followed by a CRLF |
| Generator.ExportLineNoCarriageReturn | src/index.ts:69 | an export line for a GraphQL name holds no carriage return |
| Generator.IndexTextSplit | src/index.ts:70 | barrel text split at CRLF gives the import line, then the lines (or one empty line when there are none), provided no line holds a carriage return |
| Generator.IndexTextLines | src/index.ts:58-70 | a barrel file split at CRLF gives the import line, then one export line per field in field order; two fields with the same identifier keep both lines |
| Generator.RootFields | src/index.ts:36-38 | the field map each kind gets from the schema, absent when the schema lacks that root type; `Generator.GenerateOutputs` relates it to the run |
| Generator.KindIf | src/index.ts:42-44 | `fields && promisses.push(...)`: one output when the root type's field map is present, none otherwise; `Generator.GenerateOutputs` states the run built from these |
| Generator.Generate | src/index.ts:36-44 | a run produces at most three outputs; which ones is stated by `Generator.GenerateOutputs` |
| Generator.GenerateOutputs | src/index.ts:36-44 | every root type the schema has is generated from its own field map, and every output of a run is the output of such a root type |
| Generator.GenerateHasKind | src/index.ts:36-44 | a run writes a kind's directory exactly when the schema has that root type; an empty field map counts |
| Generator.OperationNotIndex | src/index.ts:61-70 | no document of a run is written where a barrel file goes |
| Generator.OperationsDistinct | src/index.ts:58-61 | two documents of a run share a path only when they are the same field of the same kind |

## Left out

- Reading the command line (yargs) and loading the schema from a URL or a
  file are left out. The schema is represented only by its root fields:
  each field's name and printed operation are inputs to the model.
- `buildOperationNodeForField` and `print` are library calls. The printed
  operation is a parameter.
- `cleanDir`, the `existsSync`/`mkdirSync` check, `writeFile` and
  `writeFileSync` are file-system effects and are left out. A run is
  modelled as the list of files it would write (`KindOutput`), and
  `pathResolve(path)` is the parameter `root`.
- The promises and `Promise.all` are not modelled as concurrency. Their one
  visible effect, that the barrel lists fields in `Object.keys` order, is
  the order of the `fields` sequence.
- `toUpperCase`/`toLowerCase` are modelled for ASCII letters only. GraphQL
  names are ASCII; a printed document can contain other letters in string
  arguments, but neither pass touches those.
- The JavaScript `replace` special patterns such as `$&` in a replacement
  string are not modelled. The only replacement used with a string pattern
  is `.`.
- LabelStrip.StripLabelsByLines, LabelStrip.StripLabelsUnchanged,
  LabelStrip.StripLabelsIdempotent: these hold only for text where no `:`
  stands right before a line break (`NoColonBreak`). In `a:\nb: c` the
  expression's `\s` matches the line break, so the two lines merge into
  `c`. The scanner `StripLabels` models that case exactly; only the
  line-by-line statements leave it out. `print` puts no `:` at the end of a
  line.
- Identifier.DeriveUnderscores, Identifier.DeriveKeepsLetters: stated for
  names without `.`. GraphQL names have none; with dots, a `.` before a
  capital is swallowed, which `UnderscoreFromPieces` covers.
- A field named `_` gives the empty identifier, and one named `_1` gives
  `1`. The exported line is then not valid TypeScript. The model computes
  this like the code does and proves no property about it.
