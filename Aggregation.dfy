/**
 * The body of `main`'s `as_completed` loop: each account's entities are
 * stamped with the account id, their (domain, entityType) pairs are
 * collected, they are counted by type, the counts are merged into the global
 * counts and the entities are appended to the global list; the CSV shaping of
 * the global list follows. The accounts arrive in completion order, which is
 * any order: `results` is that order.
 */
module Aggregation {
  import opened Wrappers
  import opened Entities
  import Csv

  /** What one finished fetch hands back: the account id and its entities. */
  datatype AccountResult = AccountResult(accountId: int, entities: seq<Entity>)

  /** The entities with `accountId` attached. */
  function Stamp(accountId: int, es: seq<Entity>): seq<Entity>
  {
    seq(|es|, i requires 0 <= i < |es| => es[i].(accountId := Some(accountId)))
  }

  /** `all_entities` after the given accounts: their stamped entities, account after account. */
  function AllEntities(rs: seq<AccountResult>): seq<Entity>
  {
    if rs == [] then []
    else
      var last := rs[|rs| - 1];
      AllEntities(rs[..|rs| - 1]) + Stamp(last.accountId, last.entities)
  }

  function Pair(e: Entity): (string, string)
  {
    (e.domain, e.entityType)
  }

  /** `entity_types_set` over the given entities. */
  function Pairs(es: seq<Entity>): set<(string, string)>
  {
    if es == [] then {} else Pairs(es[..|es| - 1]) + {Pair(es[|es| - 1])}
  }

  function Types(es: seq<Entity>): seq<string>
  {
    seq(|es|, i requires 0 <= i < |es| => es[i].entityType)
  }

  /** For each type present, the number of entities of that type. */
  function CountsOf(es: seq<Entity>): map<string, nat>
  {
    var bag := multiset(Types(es));
    map t | t in bag :: bag[t]
  }

  /** A missing dictionary key read as zero. */
  function Get(m: map<string, nat>, t: string): nat
  {
    if t in m then m[t] else 0
  }

  /** Two count dictionaries added key by key. */
  function Merge(g: map<string, nat>, c: map<string, nat>): map<string, nat>
  {
    map t | t in g.Keys + c.Keys :: Get(g, t) + Get(c, t)
  }

  /** `global_entity_type_counts` after the given accounts: their per-account counts merged in turn. */
  function GlobalCounts(rs: seq<AccountResult>): map<string, nat>
  {
    if rs == [] then map[]
    else Merge(GlobalCounts(rs[..|rs| - 1]), CountsOf(rs[|rs| - 1].entities))
  }

  /** The sum of a dictionary's counts. */
  ghost function Total(m: map<string, nat>): nat
    decreases |m|
  {
    if |m| == 0 then 0
    else
      var k :| k in m;
      m[k] + Total(m - {k})
  }

  // ---------------------------------------------------------------------
  // The source's loops

  /** Sets `accountId` on each entity and adds its (domain, entityType) pair. */
  method StampEntities(accountId: int, entities: seq<Entity>, pairs: set<(string, string)>)
    returns (stamped: seq<Entity>, newPairs: set<(string, string)>)
    ensures stamped == Stamp(accountId, entities)
    ensures newPairs == pairs + Pairs(stamped)
  {
    stamped, newPairs := [], pairs;
    for i := 0 to |entities|
      invariant stamped == Stamp(accountId, entities[..i])
      invariant newPairs == pairs + Pairs(stamped)
    {
      var e := entities[i].(accountId := Some(accountId));
      assert (stamped + [e])[..|stamped|] == stamped;
      stamped := stamped + [e];
      newPairs := newPairs + {(e.domain, e.entityType)};
    }
    assert entities[..|entities|] == entities;
  }

  /** `entity_type_counts`: one more for an entity's type, or a new key at one. */
  method CountByType(entities: seq<Entity>) returns (counts: map<string, nat>)
    ensures counts == CountsOf(entities)
  {
    counts := map[];
    for i := 0 to |entities|
      invariant counts == CountsOf(entities[..i])
    {
      var t := entities[i].entityType;
      CountsOfSnoc(entities[..i], entities[i]);
      assert entities[..i + 1] == entities[..i] + [entities[i]];
      if t in counts {
        counts := counts[t := counts[t] + 1];
      } else {
        counts := counts[t := 1];
      }
    }
    assert entities[..|entities|] == entities;
  }

  /** Adds one account's counts into the global counts, key by key in any order. */
  method MergeCounts(global: map<string, nat>, counts: map<string, nat>) returns (merged: map<string, nat>)
    ensures merged == Merge(global, counts)
  {
    merged := global;
    var todo := counts.Keys;
    while todo != {}
      invariant todo <= counts.Keys
      invariant merged == Merge(global, counts - todo)
      decreases |todo|
    {
      var t :| t in todo;
      MergeKey(global, counts, todo, t, merged);
      if t in merged {
        merged := merged[t := merged[t] + counts[t]];
      } else {
        merged := merged[t := counts[t]];
      }
      todo := todo - {t};
    }
    assert counts - todo == counts;
  }

  /**
   * The `as_completed` loop over the finished fetches in `results` order:
   * the global entity list, the pair set and the global counts.
   */
  method Aggregate(results: seq<AccountResult>)
    returns (allEntities: seq<Entity>, pairs: set<(string, string)>, global: map<string, nat>)
    ensures allEntities == AllEntities(results)
    ensures pairs == Pairs(allEntities)
    ensures global == GlobalCounts(results)
  {
    allEntities, pairs, global := [], {}, map[];
    for i := 0 to |results|
      invariant allEntities == AllEntities(results[..i])
      invariant pairs == Pairs(allEntities)
      invariant global == GlobalCounts(results[..i])
    {
      var r := results[i];
      var stamped;
      stamped, pairs := StampEntities(r.accountId, r.entities, pairs);
      var counts := CountByType(stamped);
      StampKeepsTypes(r.accountId, r.entities);
      global := MergeCounts(global, counts);
      PairsAppend(allEntities, stamped);
      allEntities := allEntities + stamped;
      assert results[..i + 1][..i] == results[..i];
    }
    assert results[..|results|] == results;
  }

  /**
   * `main` without its output: aggregation, then the header and rows of the
   * CSV of all entities. Every entity reaching the CSV carries an account id.
   */
  method ProcessAccounts(results: seq<AccountResult>)
    returns (allEntities: seq<Entity>, pairs: set<(string, string)>, global: map<string, nat>,
             fieldnames: seq<string>, rows: seq<map<string, string>>)
    ensures allEntities == AllEntities(results)
    ensures pairs == Pairs(allEntities)
    ensures global == GlobalCounts(results)
    ensures Csv.AllStamped(allEntities)
    ensures fieldnames == Csv.Header(allEntities)
    ensures |rows| == |allEntities| && forall i :: 0 <= i < |allEntities| ==> rows[i] == Csv.Row(allEntities[i])
  {
    allEntities, pairs, global := Aggregate(results);
    AllEntitiesStamped(results);
    fieldnames, rows := Csv.EntitiesCsv(allEntities);
  }

  // ---------------------------------------------------------------------
  // Stamping

  /** Stamping sets the account id of every entity and changes nothing else. */
  lemma StampSetsAccount(accountId: int, es: seq<Entity>)
    ensures var s := Stamp(accountId, es);
      |s| == |es| && forall i :: 0 <= i < |es| ==>
        s[i].accountId == Some(accountId) && s[i].(accountId := es[i].accountId) == es[i]
  {
  }

  lemma StampKeepsTypes(accountId: int, es: seq<Entity>)
    ensures Types(Stamp(accountId, es)) == Types(es)
    ensures CountsOf(Stamp(accountId, es)) == CountsOf(es)
  {
  }

  lemma {:induction false} AllEntitiesAppend(a: seq<AccountResult>, b: seq<AccountResult>)
    ensures AllEntities(a + b) == AllEntities(a) + AllEntities(b)
    decreases |b|
  {
    if b != [] {
      var init := b[..|b| - 1];
      assert (a + b)[..|a + b| - 1] == a + init;
      AllEntitiesAppend(a, init);
    } else {
      assert a + b == a;
    }
  }

  lemma StampMembership(accountId: int, es: seq<Entity>, e: Entity)
    ensures e in Stamp(accountId, es) <==> exists x :: x in es && e == x.(accountId := Some(accountId))
  {
    var s := Stamp(accountId, es);
    if e in s {
      var i :| 0 <= i < |s| && s[i] == e;
      assert es[i] in es;
    }
    if exists x :: x in es && e == x.(accountId := Some(accountId)) {
      var x :| x in es && e == x.(accountId := Some(accountId));
      var i :| 0 <= i < |es| && es[i] == x;
      assert s[i] == e;
    }
  }

  /** `e` is an entity of one of the accounts, stamped with that account's id. */
  predicate StampedFrom(rs: seq<AccountResult>, e: Entity)
  {
    exists r, x :: r in rs && x in r.entities && e == x.(accountId := Some(r.accountId))
  }

  /**
   * Each entity of the global list is an entity of some account stamped with
   * that account's id, and each account's entities all reach the list so
   * stamped.
   */
  lemma {:induction false} AllEntitiesStampedWith(rs: seq<AccountResult>, e: Entity)
    ensures e in AllEntities(rs) <==> StampedFrom(rs, e)
    decreases |rs|
  {
    if rs != [] {
      var init, last := rs[..|rs| - 1], rs[|rs| - 1];
      var s := Stamp(last.accountId, last.entities);
      assert AllEntities(rs) == AllEntities(init) + s;
      AllEntitiesStampedWith(init, e);
      StampMembership(last.accountId, last.entities, e);
      if e in AllEntities(init) {
        var r, x :| r in init && x in r.entities && e == x.(accountId := Some(r.accountId));
        assert r in rs;
      } else if e in s {
        var x :| x in last.entities && e == x.(accountId := Some(last.accountId));
        assert last in rs;
      }
      if StampedFrom(rs, e) {
        var r, x :| r in rs && x in r.entities && e == x.(accountId := Some(r.accountId));
        if r == last {
          assert e in s;
        } else {
          assert r in init;
          assert StampedFrom(init, e);
        }
      }
    }
  }

  lemma AllEntitiesStamped(rs: seq<AccountResult>)
    ensures Csv.AllStamped(AllEntities(rs))
  {
    var all := AllEntities(rs);
    forall i | 0 <= i < |all|
      ensures all[i].accountId.Some?
    {
      AllEntitiesStampedWith(rs, all[i]);
    }
  }

  // ---------------------------------------------------------------------
  // The pair set

  lemma {:induction false} PairsMembership(es: seq<Entity>, p: (string, string))
    ensures p in Pairs(es) <==> exists e :: e in es && p == (e.domain, e.entityType)
    decreases |es|
  {
    if es != [] {
      var init := es[..|es| - 1];
      PairsMembership(init, p);
      if p in Pairs(init) {
        var e :| e in init && p == (e.domain, e.entityType);
        assert e in es;
      }
      if exists e :: e in es && p == (e.domain, e.entityType) {
        var e :| e in es && p == (e.domain, e.entityType);
        if e != es[|es| - 1] {
          assert e in init;
        }
      }
    }
  }

  lemma PairsAppend(a: seq<Entity>, b: seq<Entity>)
    ensures Pairs(a + b) == Pairs(a) + Pairs(b)
  {
    forall p
      ensures p in Pairs(a + b) <==> p in Pairs(a) + Pairs(b)
    {
      PairsMembership(a + b, p);
      PairsMembership(a, p);
      PairsMembership(b, p);
      if exists e :: e in a + b && p == (e.domain, e.entityType) {
        var e :| e in a + b && p == (e.domain, e.entityType);
        assert e in a || e in b;
      }
    }
  }

  // ---------------------------------------------------------------------
  // Counting

  lemma CountsOfSnoc(es: seq<Entity>, e: Entity)
    ensures CountsOf(es + [e]) == CountsOf(es)[e.entityType := Get(CountsOf(es), e.entityType) + 1]
  {
    assert Types(es + [e]) == Types(es) + [e.entityType];
  }

  /** A type is counted exactly when some entity has it, and its count is the number of such entities. */
  lemma CountsMeaning(es: seq<Entity>, t: string)
    ensures t in CountsOf(es) <==> exists e :: e in es && e.entityType == t
    ensures Get(CountsOf(es), t) == multiset(Types(es))[t]
  {
    if t in CountsOf(es) {
      var i :| 0 <= i < |Types(es)| && Types(es)[i] == t;
      assert es[i] in es;
    }
    if exists e :: e in es && e.entityType == t {
      var e :| e in es && e.entityType == t;
      var i :| 0 <= i < |es| && es[i] == e;
      assert Types(es)[i] == t;
    }
  }

  lemma TypesAppend(a: seq<Entity>, b: seq<Entity>)
    ensures Types(a + b) == Types(a) + Types(b)
  {
  }

  /** Merging the counts of two lists gives the counts of their concatenation. */
  lemma MergeCountsOf(a: seq<Entity>, b: seq<Entity>)
    ensures Merge(CountsOf(a), CountsOf(b)) == CountsOf(a + b)
  {
    var ma, mb := multiset(Types(a)), multiset(Types(b));
    TypesAppend(a, b);
    assert multiset(Types(a + b)) == ma + mb;
    var lhs, rhs := Merge(CountsOf(a), CountsOf(b)), CountsOf(a + b);
    forall t
      ensures t in lhs <==> t in rhs
      ensures t in lhs ==> lhs[t] == rhs[t]
    {
      assert t in CountsOf(a) <==> t in ma;
      assert t in CountsOf(b) <==> t in mb;
      assert Get(CountsOf(a), t) == ma[t] && Get(CountsOf(b), t) == mb[t];
    }
  }

  /** The global counts are the counts of the global entity list. */
  lemma {:induction false} GlobalCountsAreTotals(rs: seq<AccountResult>)
    ensures GlobalCounts(rs) == CountsOf(AllEntities(rs))
    decreases |rs|
  {
    if rs != [] {
      var init, last := rs[..|rs| - 1], rs[|rs| - 1];
      GlobalCountsAreTotals(init);
      StampKeepsTypes(last.accountId, last.entities);
      MergeCountsOf(AllEntities(init), Stamp(last.accountId, last.entities));
    } else {
      assert multiset(Types([])) == multiset{};
    }
  }

  /** One key of `counts` added into a partial merge extends the merge by that key. */
  lemma MergeKey(g: map<string, nat>, c: map<string, nat>, todo: set<string>, t: string, merged: map<string, nat>)
    requires t in todo && todo <= c.Keys && merged == Merge(g, c - todo)
    ensures (if t in merged then merged[t := merged[t] + c[t]] else merged[t := c[t]]) == Merge(g, c - (todo - {t}))
  {
    MergeStep(g, c, todo, t);
  }

  lemma MergeStep(g: map<string, nat>, c: map<string, nat>, todo: set<string>, t: string)
    requires t in todo && todo <= c.Keys
    ensures Merge(g, c - (todo - {t})) == Merge(g, c - todo)[t := Get(Merge(g, c - todo), t) + c[t]]
  {
  }

  /** The key that the definition of `Total` takes out first. */
  lemma TotalUnfold(m: map<string, nat>, k: string) returns (first: string)
    requires k in m
    ensures first in m && Total(m) == m[first] + Total(m - {first})
  {
    assert |m| != 0 by {
      assert k in m.Keys;
    }
    first :| first in m && Total(m) == m[first] + Total(m - {first});
  }

  lemma TotalRemove(m: map<string, nat>, k: string)
    requires k in m
    ensures Total(m) == m[k] + Total(m - {k})
    decreases |m|, 1
  {
    var k' := TotalUnfold(m, k);
    if k' != k {
      TotalRemoveOther(m, k, k');
    }
  }

  /** `TotalRemove` when the definition of `Total` took out another key first. */
  lemma TotalRemoveOther(m: map<string, nat>, k: string, k': string)
    requires k in m && k' in m && k != k'
    requires Total(m) == m[k'] + Total(m - {k'})
    ensures Total(m) == m[k] + Total(m - {k})
    decreases |m|, 0
  {
    RemoveShrinks(m, k');
    RemoveShrinks(m, k);
    TotalRemove(m - {k'}, k);
    TotalRemove(m - {k}, k');
    TotalSwap(m, k, k');
  }

  /** Removing two keys in either order leaves the same rest, so either key can be taken out first. */
  lemma TotalSwap(m: map<string, nat>, k: string, k': string)
    requires k in m && k' in m && k != k'
    requires Total(m) == m[k'] + Total(m - {k'})
    requires Total(m - {k'}) == (m - {k'})[k] + Total(m - {k'} - {k})
    requires Total(m - {k}) == (m - {k})[k'] + Total(m - {k} - {k'})
    ensures Total(m) == m[k] + Total(m - {k})
  {
    RemoveCommutes(m, k, k');
    assert (m - {k'})[k] == m[k] && (m - {k})[k'] == m[k'];
  }

  lemma RemoveCommutes(m: map<string, nat>, a: string, b: string)
    ensures m - {a} - {b} == m - {b} - {a}
  {
    assert (m - {a} - {b}).Keys == (m - {b} - {a}).Keys;
  }

  lemma RemoveShrinks(m: map<string, nat>, k: string)
    requires k in m
    ensures |m - {k}| == |m| - 1
  {
    assert (m - {k}).Keys == m.Keys - {k};
  }

  lemma TotalUpdate(m: map<string, nat>, k: string, v: nat)
    ensures Total(m[k := v]) + Get(m, k) == Total(m) + v
  {
    TotalRemove(m[k := v], k);
    assert m[k := v] - {k} == m - {k};
    if k in m {
      TotalRemove(m, k);
    } else {
      assert m - {k} == m;
    }
  }

  /** Per-account counts sum to the number of the account's entities. */
  lemma {:induction false} TotalCounts(es: seq<Entity>)
    ensures Total(CountsOf(es)) == |es|
    decreases |es|
  {
    if es == [] {
      assert CountsOf(es) == map[];
    } else {
      var init, e := es[..|es| - 1], es[|es| - 1];
      assert es == init + [e];
      TotalCounts(init);
      CountsOfSnoc(init, e);
      TotalUpdate(CountsOf(init), e.entityType, Get(CountsOf(init), e.entityType) + 1);
    }
  }

  // ---------------------------------------------------------------------
  // Independence of the completion order

  /** Taking one element out of a sequence takes it out of its multiset. */
  lemma RemoveAt<T>(xs: seq<T>, i: nat)
    requires i < |xs|
    ensures xs == xs[..i] + [xs[i]] + xs[i + 1..]
    ensures multiset(xs[..i] + xs[i + 1..]) == multiset(xs) - multiset{xs[i]}
  {
    assert xs == xs[..i] + [xs[i]] + xs[i + 1..];
  }

  lemma {:induction false} AllEntitiesPerm(rs1: seq<AccountResult>, rs2: seq<AccountResult>)
    requires multiset(rs1) == multiset(rs2)
    ensures multiset(AllEntities(rs1)) == multiset(AllEntities(rs2))
    decreases |rs1|
  {
    if rs1 == [] {
      assert |multiset(rs2)| == 0;
    } else {
      var n := |rs1| - 1;
      var x := rs1[n];
      assert rs1 == rs1[..n] + [x];
      assert x in multiset(rs2);
      var i :| 0 <= i < |rs2| && rs2[i] == x;
      RemoveAt(rs2, i);
      AllEntitiesPerm(rs1[..n], rs2[..i] + rs2[i + 1..]);
      AllEntitiesMoved(rs1[..n], x, rs2[..i], rs2[i + 1..]);
    }
  }

  lemma AllEntitiesMoved(init: seq<AccountResult>, x: AccountResult, before: seq<AccountResult>, after: seq<AccountResult>)
    requires multiset(AllEntities(init)) == multiset(AllEntities(before + after))
    ensures multiset(AllEntities(init + [x])) == multiset(AllEntities(before + [x] + after))
  {
    var sx := Stamp(x.accountId, x.entities);
    assert AllEntities([x]) == sx by {
      assert [x][..0] == [];
    }
    var a, c := AllEntities(before), AllEntities(after);
    AllEntitiesAppend(before + [x], after);
    AllEntitiesAppend(before, [x]);
    AllEntitiesAppend(before, after);
    AllEntitiesAppend(init, [x]);
    BagMove(a, sx, c);
  }

  lemma {:induction false} TypesPerm(es1: seq<Entity>, es2: seq<Entity>)
    requires multiset(es1) == multiset(es2)
    ensures multiset(Types(es1)) == multiset(Types(es2))
    decreases |es1|
  {
    if es1 == [] {
      assert |multiset(es2)| == 0;
    } else {
      var n := |es1| - 1;
      var x := es1[n];
      assert es1 == es1[..n] + [x];
      assert x in multiset(es2);
      var i :| 0 <= i < |es2| && es2[i] == x;
      RemoveAt(es2, i);
      TypesPerm(es1[..n], es2[..i] + es2[i + 1..]);
      TypesMoved(es1[..n], x, es2[..i], es2[i + 1..]);
    }
  }

  lemma TypesMoved(init: seq<Entity>, x: Entity, before: seq<Entity>, after: seq<Entity>)
    requires multiset(Types(init)) == multiset(Types(before + after))
    ensures multiset(Types(init + [x])) == multiset(Types(before + [x] + after))
  {
    var a, c := Types(before), Types(after);
    TypesAppend(before + [x], after);
    TypesAppend(before, [x]);
    TypesAppend(before, after);
    TypesAppend(init, [x]);
    assert Types([x]) == [x.entityType];
    BagMove(a, [x.entityType], c);
  }

  /** Moving a middle part to the end leaves the multiset unchanged. */
  lemma BagMove<T>(a: seq<T>, b: seq<T>, c: seq<T>)
    ensures multiset(a + b + c) == multiset(a + c) + multiset(b)
  {
  }

  /**
   * Whatever order the accounts complete in, the global list holds the same
   * entities (as a multiset), and the pair set, the global counts, the CSV
   * header and the set of CSV rows are the same.
   */
  lemma AggregationOrderFree(rs1: seq<AccountResult>, rs2: seq<AccountResult>)
    requires multiset(rs1) == multiset(rs2)
    ensures multiset(AllEntities(rs1)) == multiset(AllEntities(rs2))
    ensures Pairs(AllEntities(rs1)) == Pairs(AllEntities(rs2))
    ensures GlobalCounts(rs1) == GlobalCounts(rs2)
    ensures Csv.Header(AllEntities(rs1)) == Csv.Header(AllEntities(rs2))
    ensures Csv.AllStamped(AllEntities(rs1)) && Csv.RowSet(AllEntities(rs1)) == Csv.RowSet(AllEntities(rs2))
  {
    var a1, a2 := AllEntities(rs1), AllEntities(rs2);
    AllEntitiesPerm(rs1, rs2);
    assert forall e :: e in a1 <==> e in a2 by {
      forall e
        ensures e in a1 <==> e in a2
      {
        assert e in a1 <==> e in multiset(a1);
        assert e in a2 <==> e in multiset(a2);
      }
    }
    forall p
      ensures p in Pairs(a1) <==> p in Pairs(a2)
    {
      PairsMembership(a1, p);
      PairsMembership(a2, p);
    }
    GlobalCountsAreTotals(rs1);
    GlobalCountsAreTotals(rs2);
    TypesPerm(a1, a2);
    Csv.HeaderOrderFree(a1, a2);
    AllEntitiesStamped(rs1);
    assert Csv.RowSet(a1) == Csv.RowSet(a2);
  }
}
