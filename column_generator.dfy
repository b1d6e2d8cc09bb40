/**
 * `SQLColumnGenerator.generate_sql`: one pass over the operation groups. An ADD group
 * goes to `OrderPreservingGenerator`; REMOVE, MOVE, REORDER and REPLACE groups are
 * string templates, one per column entry; any other operation tag contributes nothing.
 */
module ColumnGenerator {
  import opened Wrappers
  import opened Strings
  import opened Schema
  import opened Formatter
  import PathIndex
  import Passes
  import Generator

  /** A MOVE, REORDER or REPLACE column entry: `path`, `value`, `moveafter` and `target_field`. */
  datatype Entry = Entry(path: string, value: string, moveafter: Option<string>, targetField: Option<string>)

  /** The `columns` list of a group: ADD descriptors, REMOVE paths, or the other operations' entries. */
  datatype Columns =
    | Descriptors(items: seq<Descriptor>)
    | Paths(paths: seq<string>)
    | Entries(entries: seq<Entry>)

  datatype OperationGroup = OperationGroup(operation: string, columns: Columns)

  /** The shape of `columns` each known operation reads. */
  predicate ShapeOk(g: OperationGroup)
  {
    (g.operation == "ADD" ==> g.columns.Descriptors?) &&
    (g.operation == "REMOVE" ==> g.columns.Paths?) &&
    (g.operation == "MOVE" || g.operation == "REORDER" || g.operation == "REPLACE" ==> g.columns.Entries?)
  }

  const DropHead: string := "ALTER TABLE {table_name} DROP COLUMN "
  const RenameHead: string := "ALTER TABLE {table_name} RENAME COLUMN "
  const AlterHead: string := "ALTER TABLE {table_name} ALTER COLUMN "

  /** The REMOVE template. */
  function DropStatement(path: string): string
  {
    DropHead + FormatPath(path)
  }

  /** The MOVE template, also used by a REPLACE of the name. */
  function RenameStatement(path: string, newName: string): string
  {
    RenameHead + FormatPath(path) + " TO " + Quote(newName)
  }

  /** The REORDER template: `FIRST` when `moveafter` is "first", else after the entry's `value` path. */
  function ReorderStatement(e: Entry): string
  {
    if e.moveafter == Some("first") then AlterHead + FormatPath(e.path) + " FIRST"
    else AlterHead + FormatPath(e.path) + " AFTER " + FormatPath(e.value)
  }

  /** `column.get("target_field", "value")` */
  function Target(e: Entry): string
  {
    e.targetField.GetOr("value")
  }

  predicate KnownTarget(e: Entry)
  {
    Target(e) in {"description", "comment", "type", "name"}
  }

  /** The REPLACE templates; a target outside description/comment/type/name gives none. */
  function ReplaceStatement(h: Helper, e: Entry): (r: Option<string>)
    ensures r.Some? <==> KnownTarget(e)
  {
    var t := Target(e);
    if t == "description" || t == "comment" then Some(AlterHead + FormatPath(e.path) + " " + FormatComment(h, e.value))
    else if t == "type" then Some(AlterHead + FormatPath(e.path) + " TYPE " + TypeName(h, e.value))
    else if t == "name" then Some(RenameStatement(e.path, e.value))
    else None
  }

  function Drops(paths: seq<string>): seq<string>
  {
    seq(|paths|, i requires 0 <= i < |paths| => DropStatement(paths[i]))
  }

  function Moves(es: seq<Entry>): seq<string>
  {
    seq(|es|, i requires 0 <= i < |es| => RenameStatement(es[i].path, es[i].value))
  }

  function Reorders(es: seq<Entry>): seq<string>
  {
    seq(|es|, i requires 0 <= i < |es| => ReorderStatement(es[i]))
  }

  /** The REPLACE loop: the statements of the entries with a known target, in entry order. */
  function Replaces(h: Helper, es: seq<Entry>): (r: seq<string>)
    ensures |r| <= |es|
    decreases |es|
  {
    if |es| == 0 then []
    else
      var n := |es| - 1;
      Replaces(h, es[..n]) + (match ReplaceStatement(h, es[n]) case Some(s) => [s] case None => [])
  }

  /** The statements one group contributes. */
  function GroupStatements(h: Helper, g: OperationGroup): seq<string>
    requires ShapeOk(g)
  {
    if g.operation == "ADD" then [Passes.GenerateAdd(h, g.columns.items)]
    else if g.operation == "REMOVE" then Drops(g.columns.paths)
    else if g.operation == "MOVE" then Moves(g.columns.entries)
    else if g.operation == "REORDER" then Reorders(g.columns.entries)
    else if g.operation == "REPLACE" then Replaces(h, g.columns.entries)
    else []
  }

  /** Each group's statements, one list per group. */
  function PerGroup(h: Helper, groups: seq<OperationGroup>): (r: seq<seq<string>>)
    requires forall g :: g in groups ==> ShapeOk(g)
    ensures |r| == |groups|
  {
    seq(|groups|, i requires 0 <= i < |groups| => GroupStatements(h, groups[i]))
  }

  /** The lists one after another. */
  function Concat(xss: seq<seq<string>>): seq<string>
    decreases |xss|
  {
    if |xss| == 0 then [] else Concat(xss[..|xss| - 1]) + xss[|xss| - 1]
  }

  /** `generate_sql`'s result: every group's statements, in group order. */
  function AllStatements(h: Helper, groups: seq<OperationGroup>): seq<string>
    requires forall g :: g in groups ==> ShapeOk(g)
  {
    Concat(PerGroup(h, groups))
  }

  // ------------------------------------------------------------------
  // The method
  // ------------------------------------------------------------------

  /** `SQLColumnGenerator(input_data).generate_sql()` */
  method GenerateSql(h: Helper, groups: seq<OperationGroup>) returns (sqlStatements: seq<string>)
    requires forall g :: g in groups ==> ShapeOk(g)
    ensures sqlStatements == AllStatements(h, groups)
  {
    sqlStatements := [];
    for i := 0 to |groups|
      invariant sqlStatements == AllStatements(h, groups[..i])
    {
      var statements := GroupSql(h, groups[i]);
      AllStatementsSnoc(h, groups, i);
      sqlStatements := sqlStatements + statements;
    }
    assert groups[..|groups|] == groups;
  }

  /** The body of the `generate_sql` loop for one group. */
  method GroupSql(h: Helper, g: OperationGroup) returns (statements: seq<string>)
    requires ShapeOk(g)
    ensures statements == GroupStatements(h, g)
  {
    var opType := g.operation;
    if opType == "ADD" {
      var addGenerator := new Generator.OrderPreservingGenerator(g.columns.items, h);
      var sql := addGenerator.GenerateSql();
      statements := [sql];
    } else if opType == "REMOVE" {
      statements := DropStatements(g.columns.paths);
    } else if opType == "MOVE" {
      statements := MoveStatements(g.columns.entries);
    } else if opType == "REORDER" {
      statements := ReorderStatements(g.columns.entries);
    } else if opType == "REPLACE" {
      statements := ReplaceStatements(h, g.columns.entries);
    } else {
      statements := [];
    }
  }

  method DropStatements(paths: seq<string>) returns (dropStatements: seq<string>)
    ensures dropStatements == Drops(paths)
  {
    dropStatements := [];
    for i := 0 to |paths|
      invariant dropStatements == Drops(paths[..i])
    {
      assert paths[..i + 1][..i] == paths[..i];
      dropStatements := dropStatements + [DropStatement(paths[i])];
    }
    assert paths[..|paths|] == paths;
  }

  method MoveStatements(es: seq<Entry>) returns (moveStatements: seq<string>)
    ensures moveStatements == Moves(es)
  {
    moveStatements := [];
    for i := 0 to |es|
      invariant moveStatements == Moves(es[..i])
    {
      assert es[..i + 1][..i] == es[..i];
      moveStatements := moveStatements + [RenameStatement(es[i].path, es[i].value)];
    }
    assert es[..|es|] == es;
  }

  method ReorderStatements(es: seq<Entry>) returns (reorderStatements: seq<string>)
    ensures reorderStatements == Reorders(es)
  {
    reorderStatements := [];
    for i := 0 to |es|
      invariant reorderStatements == Reorders(es[..i])
    {
      assert es[..i + 1][..i] == es[..i];
      reorderStatements := reorderStatements + [ReorderStatement(es[i])];
    }
    assert es[..|es|] == es;
  }

  method ReplaceStatements(h: Helper, es: seq<Entry>) returns (replaceStatements: seq<string>)
    ensures replaceStatements == Replaces(h, es)
  {
    replaceStatements := [];
    for i := 0 to |es|
      invariant replaceStatements == Replaces(h, es[..i])
    {
      assert es[..i + 1][..i] == es[..i];
      var statement := ReplaceStatement(h, es[i]);
      if statement.Some? {
        replaceStatements := replaceStatements + [statement.value];
      }
    }
    assert es[..|es|] == es;
  }

  // ------------------------------------------------------------------
  // Properties
  // ------------------------------------------------------------------

  /** An ADD group yields exactly one statement, the empty ADD literal when nothing is defined. */
  lemma AddYieldsOne(h: Helper, g: OperationGroup)
    requires g.operation == "ADD" && ShapeOk(g)
    ensures |GroupStatements(h, g)| == 1
    ensures PathIndex.WellFormed(PathIndex.BuildIndex(h, g.columns.items))
    ensures GroupStatements(h, g)[0] == Passes.EmptyAdd <==>
      Passes.Definitions(PathIndex.BuildIndex(h, g.columns.items)) == []
  {
    Passes.GenerateAddEmpty(h, g.columns.items);
  }

  /** REMOVE, MOVE and REORDER yield one statement per entry, the i-th about the i-th entry's path. */
  lemma OnePerEntry(h: Helper, g: OperationGroup)
    requires ShapeOk(g) && (g.operation == "REMOVE" || g.operation == "MOVE" || g.operation == "REORDER")
    ensures g.operation == "REMOVE" ==> (|GroupStatements(h, g)| == |g.columns.paths| &&
      forall i :: 0 <= i < |g.columns.paths| ==> GroupStatements(h, g)[i] == DropHead + FormatPath(g.columns.paths[i]))
    ensures g.operation != "REMOVE" ==> (|GroupStatements(h, g)| == |g.columns.entries| &&
      forall i :: 0 <= i < |g.columns.entries| ==>
        StartsWith(GroupStatements(h, g)[i], (if g.operation == "MOVE" then RenameHead else AlterHead) + FormatPath(g.columns.entries[i].path)))
  {
    if g.operation != "REMOVE" {
      var es := g.columns.entries;
      forall i | 0 <= i < |es|
        ensures StartsWith(GroupStatements(h, g)[i], (if g.operation == "MOVE" then RenameHead else AlterHead) + FormatPath(es[i].path))
      {
        var head := (if g.operation == "MOVE" then RenameHead else AlterHead) + FormatPath(es[i].path);
        var s := GroupStatements(h, g)[i];
        if g.operation == "MOVE" {
          assert s == head + (" TO " + Quote(es[i].value));
        } else if es[i].moveafter == Some("first") {
          assert s == head + " FIRST";
        } else {
          assert s == head + (" AFTER " + FormatPath(es[i].value));
        }
        StartsWithAppend(head, s[|head|..]);
        assert head + s[|head|..] == s;
      }
    }
  }

  /** An unrecognised operation tag yields no statement. */
  lemma UnknownOperationYieldsNone(h: Helper, g: OperationGroup)
    requires ShapeOk(g) && g.operation !in {"ADD", "REMOVE", "MOVE", "REORDER", "REPLACE"}
    ensures GroupStatements(h, g) == []
  {
  }

  /** The entries of `es` whose `target_field` the REPLACE branch recognises. */
  function KnownEntries(es: seq<Entry>): (r: seq<Entry>)
    ensures forall e :: e in r <==> e in es && KnownTarget(e)
    decreases |es|
  {
    if |es| == 0 then []
    else
      var n := |es| - 1;
      assert es == es[..n] + [es[n]];
      KnownEntries(es[..n]) + (if KnownTarget(es[n]) then [es[n]] else [])
  }

  /**
   * REPLACE yields exactly one statement per entry with a known target, in entry order;
   * entries with any other target contribute nothing.
   */
  lemma {:induction false} ReplaceOnePerKnownTarget(h: Helper, es: seq<Entry>)
    ensures |Replaces(h, es)| == |KnownEntries(es)|
    ensures forall i :: 0 <= i < |KnownEntries(es)| ==> Replaces(h, es)[i] == ReplaceStatement(h, KnownEntries(es)[i]).value
    decreases |es|
  {
    if |es| > 0 {
      var n := |es| - 1;
      ReplaceOnePerKnownTarget(h, es[..n]);
    }
  }

  /** A REPLACE group whose targets are all unrecognised yields nothing. */
  lemma ReplaceUnknownTargetsYieldNone(h: Helper, es: seq<Entry>)
    requires forall e :: e in es ==> !KnownTarget(e)
    ensures Replaces(h, es) == []
  {
    ReplaceOnePerKnownTarget(h, es);
  }

  /** A REPLACE of the name is the same statement as a MOVE of that entry. */
  lemma ReplaceNameIsMove(h: Helper, e: Entry)
    requires Target(e) == "name"
    ensures ReplaceStatement(h, e) == Some(Moves([e])[0])
  {
  }

  /** A DROP statement's column is recovered by unquoting what follows its fixed head. */
  lemma DropStatementRoundTrip(path: string)
    ensures StartsWith(DropStatement(path), DropHead)
    ensures UnquotePath(DropStatement(path)[|DropHead|..]) == path
  {
    FormatPathRoundTrip(path);
    StartsWithAppend(DropHead, FormatPath(path));
    assert DropStatement(path)[|DropHead|..] == FormatPath(path);
  }

  lemma {:induction false} ConcatAppend(xs: seq<seq<string>>, ys: seq<seq<string>>)
    ensures Concat(xs + ys) == Concat(xs) + Concat(ys)
    decreases |ys|
  {
    if |ys| == 0 {
      assert xs + ys == xs;
    } else {
      var n := |ys| - 1;
      ConcatAppend(xs, ys[..n]);
      assert (xs + ys)[..|xs + ys| - 1] == xs + ys[..n];
    }
  }

  /** The statements of consecutive runs of groups concatenate. */
  lemma AllStatementsAppend(h: Helper, a: seq<OperationGroup>, b: seq<OperationGroup>)
    requires forall g :: g in a + b ==> ShapeOk(g)
    ensures AllStatements(h, a + b) == AllStatements(h, a) + AllStatements(h, b)
  {
    var ab, pa, pb := PerGroup(h, a + b), PerGroup(h, a), PerGroup(h, b);
    forall i | 0 <= i < |ab| ensures ab[i] == (pa + pb)[i] {
      if i < |a| {
        assert (a + b)[i] == a[i];
      } else {
        assert (a + b)[i] == b[i - |a|];
      }
    }
    assert ab == pa + pb;
    ConcatAppend(pa, pb);
  }

  /** One more group appends its statements. */
  lemma AllStatementsSnoc(h: Helper, groups: seq<OperationGroup>, i: nat)
    requires i < |groups| && forall g :: g in groups ==> ShapeOk(g)
    ensures AllStatements(h, groups[..i + 1]) == AllStatements(h, groups[..i]) + GroupStatements(h, groups[i])
  {
    var prefix, g := groups[..i], groups[i];
    assert groups[..i + 1] == prefix + [g];
    AllStatementsAppend(h, prefix, [g]);
    var one := PerGroup(h, [g]);
    assert one[..0] == [] && one[0] == GroupStatements(h, g);
    assert Concat(one) == Concat(one[..0]) + one[0];
    assert AllStatements(h, [g]) == GroupStatements(h, g);
  }
}
