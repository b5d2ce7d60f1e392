/**
 * The shaping done by `write_entities_to_csv`: the header (five fixed
 * columns, then every tag key met in any entity, sorted) and one row
 * dictionary per entity. The CSV writer itself (quoting, escaping, the file)
 * is not modelled; `Cell` is the value it writes under a column, blank when
 * the row has no such key.
 */
module Csv {
  import opened Wrappers
  import opened Text
  import opened Entities

  const FixedColumns: seq<string> := ["accountId", "guid", "name", "entityType", "domain"]

  /** The keys of a tag list. */
  function KeysOf(tags: seq<Tag>): set<string>
  {
    if tags == [] then {} else KeysOf(tags[..|tags| - 1]) + {tags[|tags| - 1].key}
  }

  /** `tag_keys`: the keys of every tag of every entity. */
  function TagKeys(es: seq<Entity>): set<string>
  {
    if es == [] then {} else TagKeys(es[..|es| - 1]) + KeysOf(es[|es| - 1].tags)
  }

  /** `fieldnames` as passed to the writer. */
  function Header(es: seq<Entity>): seq<string>
  {
    FixedColumns + SortedKeys(TagKeys(es))
  }

  /** The five fixed cells; the account id is written as its decimal text. */
  function FixedCells(e: Entity): map<string, string>
    requires e.accountId.Some?
  {
    map["accountId" := Decimal(e.accountId.value), "guid" := e.guid, "name" := e.name,
        "entityType" := e.entityType, "domain" := e.domain]
  }

  /** Each tag in turn sets its key to its values joined by `, `. */
  function TagCells(base: map<string, string>, tags: seq<Tag>): map<string, string>
  {
    if tags == [] then base
    else
      var last := tags[|tags| - 1];
      TagCells(base, tags[..|tags| - 1])[last.key := Join(", ", last.values)]
  }

  /** The row dictionary of one stamped entity. */
  function Row(e: Entity): map<string, string>
    requires e.accountId.Some?
  {
    TagCells(FixedCells(e), e.tags)
  }

  /** What the writer puts under `column` for `row`: blank when the key is absent. */
  function Cell(row: map<string, string>, column: string): string
  {
    if column in row then row[column] else ""
  }

  /** The rows handed to the writer, as a set. */
  function RowSet(es: seq<Entity>): set<map<string, string>>
  {
    set e | e in es && e.accountId.Some? :: Row(e)
  }

  predicate AllStamped(es: seq<Entity>)
  {
    forall i :: 0 <= i < |es| ==> es[i].accountId.Some?
  }

  // ---------------------------------------------------------------------
  // The source's loops

  /** Collects `tag_keys` entity by entity, tag by tag, and extends the fixed columns with them sorted. */
  method Fieldnames(entities: seq<Entity>) returns (fieldnames: seq<string>)
    ensures fieldnames == Header(entities)
  {
    var tagKeys: set<string> := {};
    var i := 0;
    while i < |entities|
      invariant i <= |entities| && tagKeys == TagKeys(entities[..i])
    {
      var tags := entities[i].tags;
      var j := 0;
      while j < |tags|
        invariant j <= |tags| && tagKeys == TagKeys(entities[..i]) + KeysOf(tags[..j])
      {
        assert tags[..j + 1][..j] == tags[..j];
        tagKeys := tagKeys + {tags[j].key};
        j := j + 1;
      }
      assert tags[..j] == tags;
      assert entities[..i + 1][..i] == entities[..i];
      i := i + 1;
    }
    assert entities[..i] == entities;
    fieldnames := FixedColumns + SortedKeys(tagKeys);
  }

  /** Builds one row: the fixed cells, then every tag overwriting its key. */
  method EntityRow(e: Entity) returns (row: map<string, string>)
    requires e.accountId.Some?
    ensures row == Row(e)
  {
    row := map["accountId" := Decimal(e.accountId.value), "guid" := e.guid, "name" := e.name,
               "entityType" := e.entityType, "domain" := e.domain];
    var j := 0;
    while j < |e.tags|
      invariant j <= |e.tags| && row == TagCells(FixedCells(e), e.tags[..j])
    {
      assert e.tags[..j + 1][..j] == e.tags[..j];
      var tag := e.tags[j];
      row := row[tag.key := Join(", ", tag.values)];
      j := j + 1;
    }
    assert e.tags[..j] == e.tags;
  }

  /**
   * `write_entities_to_csv(entities)` without the file: the field names and
   * the row handed to the writer for each entity, in order.
   */
  method EntitiesCsv(entities: seq<Entity>) returns (fieldnames: seq<string>, rows: seq<map<string, string>>)
    requires AllStamped(entities)
    ensures fieldnames == Header(entities)
    ensures |rows| == |entities| && forall i :: 0 <= i < |entities| ==> rows[i] == Row(entities[i])
  {
    fieldnames := Fieldnames(entities);
    rows := [];
    var i := 0;
    while i < |entities|
      invariant i <= |entities| && |rows| == i
      invariant forall k :: 0 <= k < i ==> rows[k] == Row(entities[k])
    {
      var row := EntityRow(entities[i]);
      rows := rows + [row];
      i := i + 1;
    }
  }

  // ---------------------------------------------------------------------
  // Properties of the header

  lemma {:induction false} KeysOfMembership(tags: seq<Tag>, k: string)
    ensures k in KeysOf(tags) <==> exists t :: t in tags && t.key == k
    decreases |tags|
  {
    if tags != [] {
      var init := tags[..|tags| - 1];
      KeysOfMembership(init, k);
      if k in KeysOf(init) {
        var t :| t in init && t.key == k;
        assert t in tags;
      }
      if exists t :: t in tags && t.key == k {
        var t :| t in tags && t.key == k;
        if t != tags[|tags| - 1] {
          assert t in init;
        }
      }
    }
  }

  lemma {:induction false} TagKeysMembership(es: seq<Entity>, k: string)
    ensures k in TagKeys(es) <==> exists e, t :: e in es && t in e.tags && t.key == k
    decreases |es|
  {
    if es != [] {
      var init, last := es[..|es| - 1], es[|es| - 1];
      TagKeysMembership(init, k);
      KeysOfMembership(last.tags, k);
      if k in TagKeys(init) {
        var e, t :| e in init && t in e.tags && t.key == k;
        assert e in es;
      }
      if k in KeysOf(last.tags) {
        var t :| t in last.tags && t.key == k;
        assert last in es;
      }
      if exists e, t :: e in es && t in e.tags && t.key == k {
        var e, t :| e in es && t in e.tags && t.key == k;
        if e != last {
          assert e in init;
        }
      }
    }
  }

  /**
   * The header is the five fixed columns followed by the distinct tag keys of
   * all entities, each once, in sorted order.
   */
  lemma HeaderColumns(es: seq<Entity>)
    ensures var h := Header(es);
      |h| >= 5 && h[..5] == FixedColumns && StrictlySorted(h[5..])
      && forall k :: k in h[5..] <==> exists e, t :: e in es && t in e.tags && t.key == k
  {
    var h := Header(es);
    assert h[..5] == FixedColumns;
    assert h[5..] == SortedKeys(TagKeys(es));
    forall k
      ensures k in h[5..] <==> exists e, t :: e in es && t in e.tags && t.key == k
    {
      TagKeysMembership(es, k);
    }
  }

  /** The header depends only on which entities there are, not on their order or repetition. */
  lemma HeaderOrderFree(es1: seq<Entity>, es2: seq<Entity>)
    requires forall e :: e in es1 <==> e in es2
    ensures Header(es1) == Header(es2)
  {
    forall k
      ensures k in TagKeys(es1) <==> k in TagKeys(es2)
    {
      TagKeysMembership(es1, k);
      TagKeysMembership(es2, k);
    }
    assert TagKeys(es1) == TagKeys(es2);
  }

  /**
   * Tag keys are not kept apart from the fixed columns: a tag keyed
   * `accountId` puts a second `accountId` column in the header.
   */
  lemma TagKeyRepeatsColumn(es: seq<Entity>, e: Entity, t: Tag)
    requires e in es && t in e.tags && t.key == "accountId"
    ensures Header(es)[0] == "accountId"
    ensures exists i :: 5 <= i < |Header(es)| && Header(es)[i] == "accountId"
  {
    TagKeysMembership(es, "accountId");
    var sorted := SortedKeys(TagKeys(es));
    assert "accountId" in sorted;
    var i :| 0 <= i < |sorted| && sorted[i] == "accountId";
    assert Header(es)[5 + i] == sorted[i];
  }

  // ---------------------------------------------------------------------
  // Properties of the rows

  lemma {:induction false} TagCellsKeys(base: map<string, string>, tags: seq<Tag>)
    ensures TagCells(base, tags).Keys == base.Keys + KeysOf(tags)
    decreases |tags|
  {
    if tags != [] {
      TagCellsKeys(base, tags[..|tags| - 1]);
    }
  }

  /** Of several tags with one key, the last one sets the cell. */
  lemma {:induction false} LastTagWins(base: map<string, string>, tags: seq<Tag>, j: nat)
    requires j < |tags|
    requires forall k :: j < k < |tags| ==> tags[k].key != tags[j].key
    ensures tags[j].key in TagCells(base, tags)
    ensures TagCells(base, tags)[tags[j].key] == Join(", ", tags[j].values)
    decreases |tags|
  {
    if j < |tags| - 1 {
      LastTagWins(base, tags[..|tags| - 1], j);
    }
  }

  /** A key no tag carries keeps its value from the fixed cells, or stays absent. */
  lemma {:induction false} UntaggedKeepsBase(base: map<string, string>, tags: seq<Tag>, key: string)
    requires forall k :: 0 <= k < |tags| ==> tags[k].key != key
    ensures key in TagCells(base, tags) <==> key in base
    ensures key in base ==> TagCells(base, tags)[key] == base[key]
    decreases |tags|
  {
    if tags != [] {
      UntaggedKeepsBase(base, tags[..|tags| - 1], key);
    }
  }

  /** The cell under a column some tag of the entity carries: the last such tag's values, joined. */
  lemma TaggedCell(e: Entity, column: string, j: nat)
    requires e.accountId.Some?
    requires j < |e.tags| && e.tags[j].key == column
    requires forall k :: j < k < |e.tags| ==> e.tags[k].key != column
    ensures Cell(Row(e), column) == Join(", ", e.tags[j].values)
  {
    LastTagWins(FixedCells(e), e.tags, j);
  }

  /**
   * The cell under a column no tag of the entity carries: the fixed field for
   * a fixed column (the account id in decimal), blank for any other column.
   */
  lemma UntaggedCell(e: Entity, column: string)
    requires e.accountId.Some?
    requires forall k :: 0 <= k < |e.tags| ==> e.tags[k].key != column
    ensures column == "accountId" ==> Cell(Row(e), column) == Decimal(e.accountId.value)
    ensures column == "guid" ==> Cell(Row(e), column) == e.guid
    ensures column == "name" ==> Cell(Row(e), column) == e.name
    ensures column == "entityType" ==> Cell(Row(e), column) == e.entityType
    ensures column == "domain" ==> Cell(Row(e), column) == e.domain
    ensures column !in FixedColumns ==> Cell(Row(e), column) == ""
  {
    UntaggedKeepsBase(FixedCells(e), e.tags, column);
  }

  /**
   * Every key of every row is a header column, so the writer never meets a
   * key it was not given (it would raise on one).
   */
  lemma RowKeysInHeader(es: seq<Entity>, i: nat)
    requires i < |es| && es[i].accountId.Some?
    ensures forall k :: k in Row(es[i]) ==> k in Header(es)
  {
    var e := es[i];
    TagCellsKeys(FixedCells(e), e.tags);
    HeaderColumns(es);
    var h := Header(es);
    forall k | k in Row(e)
      ensures k in h
    {
      if k in KeysOf(e.tags) {
        KeysOfMembership(e.tags, k);
        assert k in h[5..];
      } else {
        assert k in FixedColumns;
        assert h[..5] == FixedColumns;
      }
    }
  }

  /** Two entities tagged `{env}` and `{env, team}`: the header has both keys after the fixed columns. */
  lemma EnvTeamHeader(e1: Entity, e2: Entity)
    requires e1.tags == [Tag("env", ["prod"])]
    requires e2.tags == [Tag("env", ["dev"]), Tag("team", ["a", "b"])]
    ensures Header([e1, e2]) == FixedColumns + ["env", "team"]
  {
    EnvTeamKeys(e1, e2);
    assert LexLess("env", "team");
    SortedPair("env", "team");
  }

  lemma EnvTeamKeys(e1: Entity, e2: Entity)
    requires e1.tags == [Tag("env", ["prod"])]
    requires e2.tags == [Tag("env", ["dev"]), Tag("team", ["a", "b"])]
    ensures TagKeys([e1, e2]) == {"env", "team"}
  {
    var es := [e1, e2];
    assert es[..1] == [e1] && [e1][..0] == [];
    assert e2.tags[..1] == [Tag("env", ["dev"])] && e1.tags[..0] == [];
    assert KeysOf(e1.tags) == {"env"};
    assert KeysOf(e2.tags) == {"env", "team"};
    assert TagKeys([e1]) == {"env"} by {
      assert TagKeys([e1]) == TagKeys([]) + KeysOf(e1.tags);
    }
    assert TagKeys(es) == TagKeys([e1]) + KeysOf(e2.tags);
  }

  /** In the same example, the first row's `team` cell is blank and the second row joins its team values. */
  lemma EnvTeamCells(e1: Entity, e2: Entity)
    requires e1.accountId.Some? && e1.tags == [Tag("env", ["prod"])]
    requires e2.accountId.Some? && e2.tags == [Tag("env", ["dev"]), Tag("team", ["a", "b"])]
    ensures Cell(Row(e1), "team") == "" && Cell(Row(e1), "env") == "prod"
    ensures Cell(Row(e2), "team") == "a, b"
  {
    UntaggedCell(e1, "team");
    TaggedCell(e1, "env", 0);
    TaggedCell(e2, "team", 1);
    assert Join(", ", ["a", "b"]) == "a" + ", " + Join(", ", ["b"]);
  }
}
