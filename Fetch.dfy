/**
 * The paginated fetch of `fetch_all_entities`. The replies of the API are an
 * input sequence: the k-th request is answered by the k-th response. The loop
 * accumulates each page's entities, learns the account's display name from
 * an `account` tag, and follows the cursor until a reply fails or carries no
 * (or an empty) next cursor.
 */
module Fetch {
  import opened Wrappers
  import opened Entities
  import Query

  /** Python falsiness of the cursor: `None` or the empty string. */
  predicate NoMorePages(cursor: Option<string>)
  {
    cursor == None || cursor == Some("")
  }

  /** A response after which the loop issues no further request. */
  predicate Ends(r: Response)
  {
    !r.Page? || NoMorePages(r.nextCursor)
  }

  /** The entities a reply contributes: a page's entities, nothing for a failure. */
  function Added(r: Response): seq<Entity>
  {
    if r.Page? then r.entities else []
  }

  /** The entities the loop has accumulated after the first `n` replies. */
  function PageEntities(rs: seq<Response>, n: nat): seq<Entity>
    requires n <= |rs|
  {
    if n == 0 then [] else PageEntities(rs, n - 1) + Added(rs[n - 1])
  }

  // ---------------------------------------------------------------------
  // Display-name discovery

  /** A tag that names the account: key `account` with at least one value. */
  predicate IsAccountTag(t: Tag)
  {
    t.key == "account" && |t.values| > 0
  }

  /** The first value of the first account tag, if any. */
  function AccountValue(tags: seq<Tag>): Option<string>
  {
    if tags == [] then None
    else if IsAccountTag(tags[0]) then Some(tags[0].values[0])
    else AccountValue(tags[1..])
  }

  /** Python truthiness of `account_name`. */
  predicate Truthy(name: Option<string>)
  {
    name.Some? && name.value != ""
  }

  /**
   * The scan of one page: each entity's first account value overwrites the
   * name, and the scan stops at the first truthy name.
   */
  function ScanEntities(es: seq<Entity>, name: Option<string>): Option<string>
  {
    if es == [] then name
    else
      var n := if AccountValue(es[0].tags).Some? then AccountValue(es[0].tags) else name;
      if Truthy(n) then n else ScanEntities(es[1..], n)
  }

  /** The display name after the first `n` replies: a page is scanned only while no name is set. */
  function DiscoveredName(rs: seq<Response>, n: nat): Option<string>
    requires n <= |rs|
  {
    if n == 0 then None
    else
      var name := DiscoveredName(rs, n - 1);
      if rs[n - 1].Page? && name == None then ScanEntities(rs[n - 1].entities, None) else name
  }

  /** The scan of one page, as the nested loops over entities and tags do it. */
  method FindAccountName(entities: seq<Entity>) returns (name: Option<string>)
    ensures name == ScanEntities(entities, None)
  {
    name := None;
    var i := 0;
    while i < |entities|
      invariant 0 <= i <= |entities|
      invariant ScanEntities(entities[i..], name) == ScanEntities(entities, None)
    {
      var tags := entities[i].tags;
      ghost var before := name;
      var j := 0;
      while j < |tags|
        invariant 0 <= j <= |tags|
        invariant AccountValue(tags[j..]) == AccountValue(tags)
        invariant name == before
      {
        if tags[j].key == "account" && |tags[j].values| > 0 {
          name := Some(tags[j].values[0]);
          break;
        }
        assert tags[j..][1..] == tags[j + 1..];
        j := j + 1;
      }
      assert name == if AccountValue(tags).Some? then AccountValue(tags) else before;
      assert entities[i..][1..] == entities[i + 1..];
      if Truthy(name) {
        break;
      }
      i := i + 1;
    }
  }

  // ---------------------------------------------------------------------
  // The loop

  /** The cursor a reply hands to the next request. */
  function NextCursor(r: Response): Option<string>
  {
    if r.Page? then r.nextCursor else None
  }

  /** The cursor argument of the first `n` requests: none for the first, then each reply's next cursor. */
  function CursorsSent(rs: seq<Response>, n: nat): (cs: seq<Option<string>>)
    requires n <= |rs|
  {
    seq(n, k requires 0 <= k < n => if k == 0 then None else NextCursor(rs[k - 1]))
  }

  /** The query text of each request, given its cursor argument. */
  function Requests(request: Option<string> -> string, cs: seq<Option<string>>): (qs: seq<string>)
    ensures |qs| == |cs| && forall k :: 0 <= k < |cs| ==> qs[k] == request(cs[k])
  {
    seq(|cs|, k requires 0 <= k < |cs| => request(cs[k]))
  }

  lemma RequestsSnoc(request: Option<string> -> string, cs: seq<Option<string>>, c: Option<string>)
    ensures Requests(request, cs + [c]) == Requests(request, cs) + [request(c)]
  {
  }

  /** What one more reply adds to the entities and to the name. */
  lemma ReplyStep(rs: seq<Response>, n: nat)
    requires n < |rs|
    ensures PageEntities(rs, n + 1) == PageEntities(rs, n) + Added(rs[n])
    ensures DiscoveredName(rs, n + 1)
      == if rs[n].Page? && DiscoveredName(rs, n) == None then ScanEntities(rs[n].entities, None) else DiscoveredName(rs, n)
  {
  }

  lemma CursorsSentSnoc(rs: seq<Response>, n: nat)
    requires n < |rs|
    ensures CursorsSent(rs, n + 1) == CursorsSent(rs, n) + [if n == 0 then None else NextCursor(rs[n - 1])]
  {
  }

  /**
   * `fetch_all_entities(api_key, account_id, entity_domains)` against the
   * replies `responses`. Besides the source's results (the account id and the
   * entities) it returns what the model makes visible: the display name, the
   * query text of each request sent and its cursor argument (so also how many
   * replies were consumed).
   */
  method FetchAllEntities(accountId: int, domains: Option<seq<string>>, responses: seq<Response>)
    returns (id: int, entities: seq<Entity>, accountName: Option<string>,
             queries: seq<string>, cursors: seq<Option<string>>)
    requires exists k :: 0 <= k < |responses| && Ends(responses[k])
    ensures id == accountId
    ensures 0 < |cursors| <= |responses| && Ends(responses[|cursors| - 1])
    ensures forall k :: 0 <= k < |cursors| - 1 ==> !Ends(responses[k])
    ensures cursors == CursorsSent(responses, |cursors|)
    ensures |queries| == |cursors| && forall k :: 0 <= k < |cursors| ==> queries[k] == Query.EntitiesQuery(accountId, domains, cursors[k])
    ensures entities == PageEntities(responses, |cursors|)
    ensures accountName == DiscoveredName(responses, |cursors|)
  {
    entities, accountName, queries, cursors := FetchPages(c => Query.EntitiesQuery(accountId, domains, c), responses);
    id := accountId;
  }

  /**
   * The `while True` loop of `fetch_all_entities`: `request` builds the query
   * text for a cursor argument, as `get_entities_query` does for the account
   * and its domains. The loop's `break`s (after a failed or error reply, and
   * after a page without a truthy next cursor) set `done`.
   */
  method FetchPages(request: Option<string> -> string, responses: seq<Response>)
    returns (entities: seq<Entity>, accountName: Option<string>,
             queries: seq<string>, cursors: seq<Option<string>>)
    requires exists k :: 0 <= k < |responses| && Ends(responses[k])
    ensures 0 < |cursors| <= |responses| && Ends(responses[|cursors| - 1])
    ensures forall k :: 0 <= k < |cursors| - 1 ==> !Ends(responses[k])
    ensures cursors == CursorsSent(responses, |cursors|)
    ensures queries == Requests(request, cursors)
    ensures entities == PageEntities(responses, |cursors|)
    ensures accountName == DiscoveredName(responses, |cursors|)
  {
    ghost var end :| 0 <= end < |responses| && Ends(responses[end]);
    var n := 0;
    var cursor: Option<string> := None;
    var done := false;
    entities, accountName, queries, cursors := [], None, [], [];
    while !done
      invariant n <= end + 1 && |cursors| == n
      invariant if done then n > 0 && Ends(responses[n - 1]) else n <= end
      invariant forall k :: 0 <= k < n - 1 ==> !Ends(responses[k])
      invariant !done && n > 0 ==> !Ends(responses[n - 1])
      invariant queries == Requests(request, cursors)
      invariant cursors == CursorsSent(responses, n)
      invariant !done ==> cursor == if n == 0 then None else NextCursor(responses[n - 1])
      invariant entities == PageEntities(responses, n)
      invariant accountName == DiscoveredName(responses, n)
      decreases end + 1 - n
    {
      var query := request(cursor);
      var response := responses[n];
      CursorsSentSnoc(responses, n);
      ReplyStep(responses, n);
      RequestsSnoc(request, cursors, cursor);
      queries, cursors := queries + [query], cursors + [cursor];
      n := n + 1;
      if response.Page? {
        entities := entities + response.entities;
        if accountName == None {
          accountName := FindAccountName(response.entities);
        }
        cursor := response.nextCursor;
        done := NoMorePages(cursor);
      } else {
        done := true;
      }
    }
  }

  // ---------------------------------------------------------------------
  // Properties of the accumulation

  /**
   * An entity is accumulated exactly when it belongs to one of the pages
   * among the first `n` replies; failed replies contribute nothing.
   */
  lemma {:induction false} PageEntitiesFromPages(rs: seq<Response>, n: nat, e: Entity)
    requires n <= |rs|
    ensures e in PageEntities(rs, n) <==> exists k :: 0 <= k < n && rs[k].Page? && e in rs[k].entities
  {
    if n > 0 {
      PageEntitiesFromPages(rs, n - 1, e);
      if exists k :: 0 <= k < n && rs[k].Page? && e in rs[k].entities {
        var k :| 0 <= k < n && rs[k].Page? && e in rs[k].entities;
        if k < n - 1 {
          assert e in PageEntities(rs, n - 1);
        }
      }
    }
  }

  /**
   * What the loop returns after `n` replies depends on those replies only:
   * replies past the last one consumed play no part.
   */
  lemma {:induction false} ConsumedOnly(rs: seq<Response>, rs': seq<Response>, n: nat)
    requires n <= |rs| && n <= |rs'| && rs[..n] == rs'[..n]
    ensures PageEntities(rs, n) == PageEntities(rs', n)
    ensures DiscoveredName(rs, n) == DiscoveredName(rs', n)
    ensures CursorsSent(rs, n) == CursorsSent(rs', n)
  {
    if n > 0 {
      assert rs[..n - 1] == rs'[..n - 1];
      assert rs[n - 1] == rs[..n][n - 1];
      ConsumedOnly(rs, rs', n - 1);
      forall k | 0 <= k < n
        ensures rs[k] == rs'[k]
      {
        assert rs[k] == rs[..n][k];
      }
    }
  }

  /**
   * Three chained pages of decreasing size, the last without a next cursor:
   * the loop consumes exactly these three replies and returns the pages'
   * entities in page order.
   */
  lemma ThreePages(a: Entity, b: Entity, c: Entity, d: Entity, e: Entity, f: Entity, later: Response)
    ensures var rs := [Page([a, b, c], Some("p2")), Page([d, e], Some("p3")), Page([f], None), later];
      && !Ends(rs[0]) && !Ends(rs[1]) && Ends(rs[2])
      && PageEntities(rs, 3) == [a, b, c, d, e, f]
      && CursorsSent(rs, 3) == [None, Some("p2"), Some("p3")]
  {
    var rs := [Page([a, b, c], Some("p2")), Page([d, e], Some("p3")), Page([f], None), later];
    assert PageEntities(rs, 1) == [a, b, c];
    assert PageEntities(rs, 2) == [a, b, c] + [d, e];
  }

  /**
   * A page followed by an error reply: the loop stops at the error, and only
   * the first page's entities come back.
   */
  lemma ErrorAfterFirstPage(p1: seq<Entity>, messages: seq<string>, later: Response)
    ensures var rs := [Page(p1, Some("c")), ApiErrors(messages), later];
      && !Ends(rs[0]) && Ends(rs[1])
      && PageEntities(rs, 2) == p1
      && CursorsSent(rs, 2) == [None, Some("c")]
  {
    var rs := [Page(p1, Some("c")), ApiErrors(messages), later];
    assert PageEntities(rs, 1) == p1;
  }

  /**
   * The first request carries no cursor; each later request carries the
   * previous page's cursor, which is a non-empty string.
   */
  lemma CursorsFollowPages(rs: seq<Response>, n: nat)
    requires 0 < n <= |rs|
    requires forall k :: 0 <= k < n - 1 ==> !Ends(rs[k])
    ensures CursorsSent(rs, n)[0] == None
    ensures forall k :: 0 < k < n ==>
      rs[k - 1].Page? && CursorsSent(rs, n)[k] == rs[k - 1].nextCursor
      && CursorsSent(rs, n)[k].Some? && CursorsSent(rs, n)[k].value != ""
  {
  }

  // ---------------------------------------------------------------------
  // Properties of name discovery

  lemma {:induction false} AccountValueFirst(tags: seq<Tag>, j: nat)
    requires j < |tags| && IsAccountTag(tags[j])
    requires forall k :: 0 <= k < j ==> !IsAccountTag(tags[k])
    ensures AccountValue(tags) == Some(tags[j].values[0])
  {
    if j > 0 {
      AccountValueFirst(tags[1..], j - 1);
    }
  }

  lemma {:induction false} AccountValueNone(tags: seq<Tag>)
    ensures AccountValue(tags) == None <==> forall k :: 0 <= k < |tags| ==> !IsAccountTag(tags[k])
  {
    if tags != [] {
      AccountValueNone(tags[1..]);
      assert forall k :: 1 <= k < |tags| ==> tags[k] == tags[1..][k - 1];
    }
  }

  /**
   * Within a page, the name is the first non-empty account value, however
   * many entities before it carry an empty one.
   */
  lemma {:induction false} ScanFindsFirstNonEmpty(es: seq<Entity>, name: Option<string>, i: nat)
    requires !Truthy(name)
    requires i < |es| && Truthy(AccountValue(es[i].tags))
    requires forall k :: 0 <= k < i ==> !Truthy(AccountValue(es[k].tags))
    ensures ScanEntities(es, name) == AccountValue(es[i].tags)
  {
    if i > 0 {
      var n := if AccountValue(es[0].tags).Some? then AccountValue(es[0].tags) else name;
      ScanFindsFirstNonEmpty(es[1..], n, i - 1);
    }
  }

  /**
   * With no non-empty account value on the page, the name is `""` when some
   * entity has an empty one and stays as it was otherwise.
   */
  lemma {:induction false} ScanWithoutNonEmpty(es: seq<Entity>, name: Option<string>)
    requires !Truthy(name)
    requires forall k :: 0 <= k < |es| ==> !Truthy(AccountValue(es[k].tags))
    ensures ScanEntities(es, name)
         == if exists k :: 0 <= k < |es| && AccountValue(es[k].tags) == Some("") then Some("") else name
  {
    if es != [] {
      var n := if AccountValue(es[0].tags).Some? then AccountValue(es[0].tags) else name;
      ScanWithoutNonEmpty(es[1..], n);
      assert forall k :: 1 <= k < |es| ==> es[k] == es[1..][k - 1];
      if exists k :: 1 <= k < |es| && AccountValue(es[k].tags) == Some("") {
        var k :| 1 <= k < |es| && AccountValue(es[k].tags) == Some("");
        assert AccountValue(es[1..][k - 1].tags) == Some("");
      }
    }
  }

  /** Scanning two runs of entities in a row is scanning the second from where the first left off. */
  lemma {:induction false} ScanAppend(a: seq<Entity>, b: seq<Entity>, name: Option<string>)
    requires !Truthy(name)
    ensures ScanEntities(a + b, name)
         == if Truthy(ScanEntities(a, name)) then ScanEntities(a, name) else ScanEntities(b, ScanEntities(a, name))
  {
    if a != [] {
      assert (a + b)[1..] == a[1..] + b;
      var n := if AccountValue(a[0].tags).Some? then AccountValue(a[0].tags) else name;
      if !Truthy(n) {
        ScanAppend(a[1..], b, n);
      }
    } else {
      assert a + b == b;
    }
  }

  /** A scan yields `""` only if some scanned entity has an empty account value. */
  lemma {:induction false} ScanEmptyNameWitness(es: seq<Entity>, name: Option<string>)
    requires name != Some("")
    requires ScanEntities(es, name) == Some("")
    ensures exists k :: 0 <= k < |es| && AccountValue(es[k].tags) == Some("")
  {
    var n := if AccountValue(es[0].tags).Some? then AccountValue(es[0].tags) else name;
    if n == Some("") {
      assert AccountValue(es[0].tags) == Some("");
    } else {
      ScanEmptyNameWitness(es[1..], n);
      var k :| 0 <= k < |es[1..]| && AccountValue(es[1..][k].tags) == Some("");
      assert es[1..][k] == es[k + 1];
    }
  }

  /** Once a name is set, later replies leave it unchanged. */
  lemma {:induction false} NameKeptOnceSet(rs: seq<Response>, k: nat, n: nat)
    requires k <= n <= |rs| && DiscoveredName(rs, k) != None
    ensures DiscoveredName(rs, n) == DiscoveredName(rs, k)
  {
    if k < n {
      NameKeptOnceSet(rs, k, n - 1);
    }
  }

  /**
   * When no fetched entity carries an empty account value, the per-page
   * discovery finds the same name as one scan over all fetched entities:
   * the first non-empty account value, pages and entities taken in order.
   */
  lemma {:induction false} NameIsFirstAcrossPages(rs: seq<Response>, n: nat)
    requires n <= |rs|
    requires forall e :: e in PageEntities(rs, n) ==> AccountValue(e.tags) != Some("")
    ensures DiscoveredName(rs, n) == ScanEntities(PageEntities(rs, n), None)
  {
    if n > 0 {
      var before, added := PageEntities(rs, n - 1), Added(rs[n - 1]);
      assert PageEntities(rs, n) == before + added;
      NameIsFirstAcrossPages(rs, n - 1);
      var name := DiscoveredName(rs, n - 1);
      ScanAppend(before, added, None);
      if name == Some("") {
        ScanEmptyNameWitness(before, None);
        assert false;
      }
      if !rs[n - 1].Page? {
        assert ScanEntities([], name) == name;
      }
    }
  }

  /**
   * The empty-name edge: an empty first value on one page stops later pages
   * from being scanned, while on a single page a later entity still wins.
   */
  lemma EmptyNameEdge()
    ensures var e1 := Entity("g1", "n1", "HOST", "INFRA", [Tag("account", [""])], None);
      var e2 := Entity("g2", "n2", "HOST", "INFRA", [Tag("account", ["Prod"])], None);
      && DiscoveredName([Page([e1], Some("c1")), Page([e2], None)], 2) == Some("")
      && DiscoveredName([Page([e1, e2], None)], 1) == Some("Prod")
  {
    var e1 := Entity("g1", "n1", "HOST", "INFRA", [Tag("account", [""])], None);
    var e2 := Entity("g2", "n2", "HOST", "INFRA", [Tag("account", ["Prod"])], None);
    assert AccountValue(e1.tags) == Some("");
    assert AccountValue(e2.tags) == Some("Prod");
    assert ScanEntities([e1], None) == Some("") by {
      assert [e1][1..] == [];
    }
    assert ScanEntities([e1, e2], None) == Some("Prod") by {
      assert [e1, e2][1..] == [e2];
    }
    var two := [Page([e1], Some("c1")), Page([e2], None)];
    assert DiscoveredName(two, 1) == Some("");
  }
}
