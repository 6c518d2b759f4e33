/**
 * The files one run writes, as values. For each root operation type the
 * schema has, the generator makes a directory named after the kind, writes
 * one `.graphql` document per root field and a barrel `index.ts` that
 * exports a `loader(...)` call per field, in field order.
 *
 * The schema, `buildOperationNodeForField` and `print` are outside the
 * model: each root field comes with its name and its printed operation.
 */
module Generator {
  import opened Strings
  import opened Ascii
  import LabelStrip
  import Sigils
  import Identifier

  datatype Kind = Query | Mutation | Subscription

  /** The directory a kind's files go to. */
  function Directory(kind: Kind): (d: string)
    ensures |d| > 0
  {
    match kind
    case Query => "queries"
    case Mutation => "mutations"
    case Subscription => "subscriptions"
  }

  /** Each kind has its own directory: they differ in their first letter. */
  lemma DirectoryDistinct(a: Kind, b: Kind)
    ensures Directory(a)[0] == Directory(b)[0] <==> a == b
  {
  }

  /** `${pathResolve(path)}/${directory}` for the resolved output path `root`. */
  function OpsPath(root: string, kind: Kind): string {
    root + "/" + Directory(kind)
  }

  /** `${opsPath}/${field}.graphql` */
  function FieldFile(ops: string, field: string): string {
    ops + "/" + field + ".graphql"
  }

  /** `${opsPath}/index.ts` */
  function IndexFile(ops: string): string {
    ops + "/index.ts"
  }

  /** `file.replace(opsPath, '.')`: the first occurrence of the directory becomes `.`. */
  function RelativePath(ops: string, file: string): string {
    ReplaceFirst(file, ops, ".")
  }

  /** A field file is named relative to its directory as `./<field>.graphql`. */
  lemma {:induction false} RelativeFieldFile(ops: string, field: string)
    ensures RelativePath(ops, FieldFile(ops, field)) == "./" + field + ".graphql"
  {
    var rest := "/" + field + ".graphql";
    assert FieldFile(ops, field) == ops + rest;
    ReplaceFirstAtStart(ops, rest, ".");
  }

  /** Different fields of one kind get different files, and none of them is the barrel file. */
  lemma {:induction false} FieldFileInjective(ops: string, a: string, b: string)
    ensures FieldFile(ops, a) == FieldFile(ops, b) <==> a == b
    ensures FieldFile(ops, a) != IndexFile(ops)
  {
    var fa, fb := FieldFile(ops, a), FieldFile(ops, b);
    if fa == fb {
      assert |a| == |b|;
      assert a == fa[|ops| + 1..|ops| + 1 + |a|];
      assert b == fb[|ops| + 1..|ops| + 1 + |b|];
    }
    assert fa[|fa| - 1] == 'l';
    assert IndexFile(ops)[|IndexFile(ops)| - 1] == 's';
  }

  // ---------------------------------------------------------------------------
  // What is written.

  /** A root field: its name and the printed operation built for it. */
  datatype Field = Field(name: string, printed: string)

  /** The `{ field, file }` record each write resolves with: the export identifier and the file. */
  datatype Entry = Entry(field: string, file: string)

  datatype FileWrite = FileWrite(path: string, content: string)

  /** What one kind leaves on disk: its directory, one document per field, and the barrel file. */
  datatype KindOutput = KindOutput(directory: string, operations: seq<FileWrite>, index: FileWrite)

  /** The document written for a field: labels stripped, then variable sigils lower-cased. */
  function Content(printed: string): (c: string)
    ensures |c| <= |printed|
  {
    Sigils.LowerSigils(LabelStrip.StripLabels(printed))
  }

  function EntryOf(ops: string, f: Field): Entry {
    Entry(Identifier.Derive(f.name), FieldFile(ops, f.name))
  }

  /** `export const ${field} = loader('${file.replace(opsPath, '.')}')` */
  function ExportLine(ops: string, e: Entry): string {
    "export const " + e.field + " = loader('" + RelativePath(ops, e.file) + "')"
  }

  const ImportLine: string := "import { loader } from 'graphql.macro'"

  const Crlf: string := "\r\n"

  /** The barrel file: the import line, a line break, then the export lines joined by line breaks. */
  function IndexText(lines: seq<string>): string {
    ImportLine + Crlf + Join(lines, Crlf)
  }

  /** The export lines of a kind's barrel file, one per field in key order. */
  function ExportLines(root: string, kind: Kind, fields: seq<Field>): (lines: seq<string>)
    ensures |lines| == |fields|
  {
    var ops := OpsPath(root, kind);
    var entries := seq(|fields|, i requires 0 <= i < |fields| => EntryOf(ops, fields[i]));
    seq(|entries|, i requires 0 <= i < |entries| => ExportLine(ops, entries[i]))
  }

  /** `generateFilesForFields`: everything one kind writes, fields in key order. */
  function GenerateFilesForFields(root: string, kind: Kind, fields: seq<Field>): (o: KindOutput)
    ensures o.directory == OpsPath(root, kind)
    ensures |o.operations| == |fields|
    ensures forall i :: 0 <= i < |fields| ==>
      o.operations[i] == FileWrite(FieldFile(o.directory, fields[i].name), Content(fields[i].printed))
    ensures o.index.path == IndexFile(o.directory)
    ensures o.index.content == IndexText(ExportLines(root, kind, fields))
  {
    var ops := OpsPath(root, kind);
    KindOutput(
      ops,
      seq(|fields|, i requires 0 <= i < |fields| =>
        FileWrite(FieldFile(ops, fields[i].name), Content(fields[i].printed))),
      FileWrite(IndexFile(ops), IndexText(ExportLines(root, kind, fields))))
  }

  /** Line `i` of the barrel file exports field `i` under its identifier from `./<name>.graphql`. */
  lemma {:induction false} ExportLineOf(root: string, kind: Kind, fields: seq<Field>, i: nat)
    requires i < |fields|
    ensures |ExportLines(root, kind, fields)| == |fields|
    ensures ExportLines(root, kind, fields)[i] ==
      "export const " + Identifier.Derive(fields[i].name) + " = loader('./" + fields[i].name + ".graphql')"
  {
    RelativeFieldFile(OpsPath(root, kind), fields[i].name);
    ExportLineText(Identifier.Derive(fields[i].name), fields[i].name);
  }

  lemma ExportLineText(id: string, name: string)
    ensures "export const " + id + " = loader('" + ("./" + name + ".graphql") + "')" ==
      "export const " + id + " = loader('./" + name + ".graphql')"
  {
  }

  /** A kind without fields still gets its directory and a barrel file holding only the import. */
  lemma EmptyKind(root: string, kind: Kind)
    ensures GenerateFilesForFields(root, kind, []).operations == []
    ensures GenerateFilesForFields(root, kind, []).index.content == ImportLine + "\r\n"
  {
    assert ExportLines(root, kind, []) == [];
  }

  // ---------------------------------------------------------------------------
  // Reading the barrel file back.

  predicate NoCarriageReturn(s: string) {
    '\r' !in s
  }

  lemma {:induction false} ExportLineNoCarriageReturn(f: Field)
    requires IsName(f.name)
    ensures NoCarriageReturn("export const " + Identifier.Derive(f.name) + " = loader('./" + f.name + ".graphql')")
  {
    var id := Identifier.Derive(f.name);
    assert '\r' !in id by {
      Identifier.DeriveOfName(f.name);
      assert forall k :: 0 <= k < |id| ==> id[k] != '\r';
    }
    assert '\r' !in f.name by {
      assert forall k :: 0 <= k < |f.name| ==> f.name[k] != '\r';
    }
    assert '\r' !in "export const " && '\r' !in " = loader('./" && '\r' !in ".graphql')";
  }

  lemma {:induction false} ExportLinesNoCarriageReturn(root: string, kind: Kind, fields: seq<Field>)
    requires forall i :: 0 <= i < |fields| ==> IsName(fields[i].name)
    ensures |ExportLines(root, kind, fields)| == |fields|
    ensures forall i :: 0 <= i < |fields| ==> NoCarriageReturn(ExportLines(root, kind, fields)[i])
  {
    forall i | 0 <= i < |fields| ensures NoCarriageReturn(ExportLines(root, kind, fields)[i]) {
      ExportLineOf(root, kind, fields, i);
      ExportLineNoCarriageReturn(fields[i]);
    }
  }

  /** Barrel text whose lines hold no carriage return splits back into the import line and those lines. */
  lemma {:induction false} IndexTextSplit(lines: seq<string>)
    requires forall i :: 0 <= i < |lines| ==> NoCarriageReturn(lines[i])
    ensures Split(IndexText(lines), Crlf) == [ImportLine] + (if lines == [] then [""] else lines)
  {
    var xs := [ImportLine] + (if lines == [] then [""] else lines);
    assert NoCarriageReturn(ImportLine);
    forall k | 0 <= k < |xs| ensures Crlf[0] !in xs[k] {
      if k > 0 && lines != [] {
        assert xs[k] == lines[k - 1];
      }
    }
    assert xs[1..] == (if lines == [] then [""] else lines);
    assert Join(xs, Crlf) == IndexText(lines);
    SplitJoin(xs, Crlf);
  }

  /**
   * Split at its line breaks, a barrel file gives back the import line and
   * then one export line per field, in field order (or one empty line when
   * there are no fields).
   */
  lemma {:induction false} IndexTextLines(root: string, kind: Kind, fields: seq<Field>)
    requires forall i :: 0 <= i < |fields| ==> IsName(fields[i].name)
    ensures var lines := ExportLines(root, kind, fields);
      Split(GenerateFilesForFields(root, kind, fields).index.content, Crlf) ==
      [ImportLine] + (if fields == [] then [""] else lines)
  {
    ExportLinesNoCarriageReturn(root, kind, fields);
    IndexTextSplit(ExportLines(root, kind, fields));
  }

  // ---------------------------------------------------------------------------
  // One run.

  function RootFields(kind: Kind, mutations: Option<seq<Field>>, queries: Option<seq<Field>>,
                      subscriptions: Option<seq<Field>>): Option<seq<Field>>
  {
    match kind
    case Mutation => mutations
    case Query => queries
    case Subscription => subscriptions
  }

  function KindIf(root: string, kind: Kind, fields: Option<seq<Field>>): seq<KindOutput> {
    match fields
    case None => []
    case Some(fs) => [GenerateFilesForFields(root, kind, fs)]
  }

  /**
   * A run: one output per root operation type the schema defines, in the
   * order mutation, query, subscription. A root type whose field map is
   * empty still counts: an empty map is truthy.
   */
  function Generate(root: string, mutations: Option<seq<Field>>, queries: Option<seq<Field>>,
                    subscriptions: Option<seq<Field>>): (r: seq<KindOutput>)
    ensures |r| <= 3
  {
    KindIf(root, Mutation, mutations) + KindIf(root, Query, queries) + KindIf(root, Subscription, subscriptions)
  }

  /** A kind's directory appears in the run exactly when the schema has that root type. */
  lemma {:induction false} GenerateHasKind(root: string, mutations: Option<seq<Field>>,
                                           queries: Option<seq<Field>>, subscriptions: Option<seq<Field>>, kind: Kind)
    ensures var r := Generate(root, mutations, queries, subscriptions);
      (exists o :: o in r && o.directory == OpsPath(root, kind)) <==>
      RootFields(kind, mutations, queries, subscriptions).Some?
  {
    var r := Generate(root, mutations, queries, subscriptions);
    KindIfDirectory(root, Mutation, mutations);
    KindIfDirectory(root, Query, queries);
    KindIfDirectory(root, Subscription, subscriptions);
    OpsPathDistinct(root, Mutation, kind);
    OpsPathDistinct(root, Query, kind);
    OpsPathDistinct(root, Subscription, kind);
    match RootFields(kind, mutations, queries, subscriptions)
    case Some(fs) =>
      assert GenerateFilesForFields(root, kind, fs) in r;
    case None =>
  }

  /**
   * The outputs of a run are exactly the per-kind outputs of the root types
   * the schema has: each such kind is generated from its own field map, and
   * nothing else is generated.
   */
  lemma {:induction false} GenerateOutputs(root: string, mutations: Option<seq<Field>>,
                                           queries: Option<seq<Field>>, subscriptions: Option<seq<Field>>)
    ensures var r := Generate(root, mutations, queries, subscriptions);
      forall kind, fs :: RootFields(kind, mutations, queries, subscriptions) == Some(fs) ==>
        GenerateFilesForFields(root, kind, fs) in r
    ensures var r := Generate(root, mutations, queries, subscriptions);
      forall o :: o in r ==> exists kind ::
        RootFields(kind, mutations, queries, subscriptions).Some? &&
        o == GenerateFilesForFields(root, kind, RootFields(kind, mutations, queries, subscriptions).value)
  {
    var m := KindIf(root, Mutation, mutations);
    var q := KindIf(root, Query, queries);
    var s := KindIf(root, Subscription, subscriptions);
    var r := Generate(root, mutations, queries, subscriptions);
    assert r == m + q + s;
    forall kind, fs | RootFields(kind, mutations, queries, subscriptions) == Some(fs)
      ensures GenerateFilesForFields(root, kind, fs) in r
    {
      match kind
      case Mutation => assert GenerateFilesForFields(root, kind, fs) in m;
      case Query => assert GenerateFilesForFields(root, kind, fs) in q;
      case Subscription => assert GenerateFilesForFields(root, kind, fs) in s;
    }
    forall o | o in r
      ensures exists kind ::
        RootFields(kind, mutations, queries, subscriptions).Some? &&
        o == GenerateFilesForFields(root, kind, RootFields(kind, mutations, queries, subscriptions).value)
    {
      if o in m {
        assert RootFields(Mutation, mutations, queries, subscriptions).Some?;
      } else if o in q {
        assert RootFields(Query, mutations, queries, subscriptions).Some?;
      } else {
        assert o in s;
        assert RootFields(Subscription, mutations, queries, subscriptions).Some?;
      }
    }
  }

  lemma KindIfDirectory(root: string, kind: Kind, fields: Option<seq<Field>>)
    ensures forall o :: o in KindIf(root, kind, fields) ==> o.directory == OpsPath(root, kind)
  {
  }

  /** Each kind has its own output directory. */
  lemma {:induction false} OpsPathDistinct(root: string, ka: Kind, kb: Kind)
    ensures OpsPath(root, ka) == OpsPath(root, kb) <==> ka == kb
  {
    if ka != kb {
      KindDirectoriesApart(root, ka, [], kb, []);
      assert OpsPath(root, ka) + [] == OpsPath(root, ka);
      assert OpsPath(root, kb) + [] == OpsPath(root, kb);
    }
  }

  /** Paths under the directories of two different kinds differ. */
  lemma {:induction false} KindDirectoriesApart(root: string, ka: Kind, ta: string, kb: Kind, tb: string)
    requires ka != kb
    ensures OpsPath(root, ka) + ta != OpsPath(root, kb) + tb
  {
    var pa, pb := OpsPath(root, ka) + ta, OpsPath(root, kb) + tb;
    assert pa[|root| + 1] == Directory(ka)[0];
    assert pb[|root| + 1] == Directory(kb)[0];
    DirectoryDistinct(ka, kb);
  }

  /** No operation document of a run lands on a barrel file. */
  lemma {:induction false} OperationNotIndex(root: string, ka: Kind, fa: seq<Field>, kb: Kind, fb: seq<Field>, i: nat)
    requires i < |fa|
    ensures GenerateFilesForFields(root, ka, fa).operations[i].path != GenerateFilesForFields(root, kb, fb).index.path
  {
    var ta := "/" + fa[i].name + ".graphql";
    assert FieldFile(OpsPath(root, ka), fa[i].name) == OpsPath(root, ka) + ta;
    if ka == kb {
      FieldFileInjective(OpsPath(root, ka), fa[i].name, fa[i].name);
    } else {
      KindDirectoriesApart(root, ka, ta, kb, "/index.ts");
    }
  }

  /**
   * Two operation documents of a run land on the same file only when they
   * are the same field of the same kind: the field names of a kind are the
   * keys of one field map, hence distinct.
   */
  lemma {:induction false} OperationsDistinct(root: string, ka: Kind, fa: seq<Field>, kb: Kind, fb: seq<Field>,
                                              i: nat, j: nat)
    requires i < |fa| && j < |fb|
    requires ka == kb ==> fa == fb
    requires forall x, y :: 0 <= x < y < |fa| ==> fa[x].name != fa[y].name
    ensures (GenerateFilesForFields(root, ka, fa).operations[i].path ==
             GenerateFilesForFields(root, kb, fb).operations[j].path) ==> ka == kb && i == j
  {
    var ta := "/" + fa[i].name + ".graphql";
    var tb := "/" + fb[j].name + ".graphql";
    assert FieldFile(OpsPath(root, ka), fa[i].name) == OpsPath(root, ka) + ta;
    assert FieldFile(OpsPath(root, kb), fb[j].name) == OpsPath(root, kb) + tb;
    if ka == kb {
      FieldFileInjective(OpsPath(root, ka), fa[i].name, fb[j].name);
    } else {
      KindDirectoriesApart(root, ka, ta, kb, tb);
    }
  }
}
