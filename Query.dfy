/**
 * The entity search query of `get_entities_query`: a filter clause over the
 * account and, optionally, a domain allow-list, embedded with the cursor slot
 * in a fixed query template. Nothing is escaped. The decoders below are the
 * inverses used to show what the query string carries.
 */
module Query {
  import opened Wrappers
  import opened Text

  /** `'d'` for one domain. */
  function Quote(d: string): string
  {
    "'" + d + "'"
  }

  function QuotedAll(ds: seq<string>): (r: seq<string>)
    ensures |r| == |ds| && forall i :: 0 <= i < |ds| ==> r[i] == Quote(ds[i])
  {
    if ds == [] then [] else [Quote(ds[0])] + QuotedAll(ds[1..])
  }

  /** The domain list as it appears between the parentheses: `'a', 'b'`. */
  function DomainList(ds: seq<string>): string
  {
    Join(", ", QuotedAll(ds))
  }

  const DomainPrefix := "domain IN ("
  const AccountInfix := ") AND accountId = "
  const AccountPrefix := "accountId = "

  /** Python truthiness of the `entity_domains` argument: present and non-empty. */
  predicate HasDomains(domains: Option<seq<string>>)
  {
    domains.Some? && |domains.value| > 0
  }

  /**
   * The search filter clause: it opens with the domain allow-list exactly when
   * a non-empty list is given, and it always ends with the account clause.
   */
  function Filter(accountId: int, domains: Option<seq<string>>): (r: string)
    ensures StartsWith(r, DomainPrefix) <==> HasDomains(domains)
    ensures var clause := AccountPrefix + Decimal(accountId);
      |clause| <= |r| && r[|r| - |clause|..] == clause
  {
    if HasDomains(domains) then
      FilterWithDomains(DomainList(domains.value), Decimal(accountId));
      DomainPrefix + (DomainList(domains.value) + (AccountInfix + Decimal(accountId)))
    else
      FilterAccountOnly(Decimal(accountId));
      AccountPrefix + Decimal(accountId)
  }

  /**
   * The cursor argument: the bare token `null` for the first page, else the
   * cursor in double quotes, so a cursor spelled `null` is not mistaken for it.
   */
  function CursorSlot(cursor: Option<string>): (r: string)
    ensures r == "null" <==> cursor.None?
    ensures cursor.Some? ==> |r| == |cursor.value| + 2 && r[0] == '"' && r[|r| - 1] == '"'
  {
    match cursor
    case None => "null"
    case Some(c) =>
      assert ("\"" + c + "\"")[0] != "null"[0];
      "\"" + c + "\""
  }

  const QueryHead := "\n    {\n      actor {\n        entitySearch(query: \""
  const QueryMid := "\") {\n          results(cursor: "
  const QueryTail := ") {\n            nextCursor\n            entities {\n              guid\n              name\n              entityType\n              domain\n              tags {\n                key\n                values\n              }\n            }\n          }\n        }\n      }\n    }\n    "

  /**
   * `get_entities_query(account_id, entity_domains, cursor)`: the fixed head,
   * the filter clause, the fixed middle, the cursor argument and the fixed
   * tail, in that order.
   */
  function EntitiesQuery(accountId: int, domains: Option<seq<string>>, cursor: Option<string>): (r: string)
    ensures Template(r, QueryHead, Filter(accountId, domains), QueryMid, QueryTail, cursor)
  {
    var f, slot := Filter(accountId, domains), CursorSlot(cursor);
    CursorSlotRoundTrip(cursor);
    TemplateParts(QueryHead, f, QueryMid, slot, QueryTail, cursor);
    QueryHead + (f + (QueryMid + (slot + QueryTail)))
  }

  // ---------------------------------------------------------------------
  // Decoders

  predicate StartsWith(s: string, p: string)
  {
    |p| <= |s| && s[..|p|] == p
  }

  /** `, '` ahead: another quoted domain follows. */
  predicate SeparatorAhead(s: string)
  {
    |s| >= 3 && s[0] == ',' && s[1] == ' ' && s[2] == '\''
  }

  /** The first index at or after `i` holding a single quote. */
  function NextQuote(s: string, i: nat): (r: Option<nat>)
    requires i <= |s|
    ensures r.Some? ==> i <= r.value < |s| && s[r.value] == '\''
    decreases |s| - i
  {
    if i == |s| then None
    else if s[i] == '\'' then Some(i)
    else NextQuote(s, i + 1)
  }

  /**
   * Reads a list `'d1', 'd2', ...` from the front of `s`; returns the domains
   * and the unread rest.
   */
  function ParseDomainList(s: string): Option<(seq<string>, string)>
    decreases |s|
  {
    if |s| == 0 || s[0] != '\'' then None
    else match NextQuote(s, 1)
      case None => None
      case Some(j) =>
        var d, rest := s[1..j], s[j + 1..];
        if SeparatorAhead(rest) then
          match ParseDomainList(rest[2..])
          case None => None
          case Some((ds, tail)) => Some(([d] + ds, tail))
        else Some(([d], rest))
  }

  /** Reads back the account id and the domain allow-list from a filter clause. */
  function DecodeFilter(f: string): Option<(int, seq<string>)>
  {
    if StartsWith(f, DomainPrefix) then
      match ParseDomainList(f[|DomainPrefix|..])
      case None => None
      case Some((ds, rest)) =>
        if StartsWith(rest, AccountInfix) then
          match ParseInt(rest[|AccountInfix|..])
          case None => None
          case Some(n) => Some((n, ds))
        else None
    else if StartsWith(f, AccountPrefix) then
      match ParseInt(f[|AccountPrefix|..])
      case None => None
      case Some(n) => Some((n, []))
    else None
  }

  function DecodeCursorSlot(s: string): Option<Option<string>>
  {
    if s == "null" then Some(None)
    else if |s| >= 2 && s[0] == '"' && s[|s| - 1] == '"' then Some(Some(s[1..|s| - 1]))
    else None
  }

  /**
   * `q` is `head`, `filter` and `middle` in turn, then text that reads back as
   * the cursor argument, then `tail`.
   */
  predicate Template(q: string, head: string, filter: string, middle: string, tail: string, cursor: Option<string>)
  {
    && |head| + |filter| + |middle| + |tail| <= |q|
    && q[..|head|] == head
    && q[|head|..|head| + |filter|] == filter
    && q[|head| + |filter|..|head| + |filter| + |middle|] == middle
    && q[|q| - |tail|..] == tail
    && DecodeCursorSlot(q[|head| + |filter| + |middle|..|q| - |tail|]) == Some(cursor)
  }

  predicate NoQuote(d: string)
  {
    forall i :: 0 <= i < |d| ==> d[i] != '\''
  }

  // ---------------------------------------------------------------------
  // Properties

  lemma {:induction false} NextQuoteFinds(s: string, i: nat, j: nat)
    requires i <= j < |s| && s[j] == '\''
    requires forall k :: i <= k < j ==> s[k] != '\''
    ensures NextQuote(s, i) == Some(j)
    decreases j - i
  {
    if i < j {
      NextQuoteFinds(s, i + 1, j);
    }
  }

  lemma DomainListStartsWithQuote(ds: seq<string>)
    requires |ds| > 0
    ensures |DomainList(ds)| > 0 && DomainList(ds)[0] == '\''
  {
    if |ds| == 1 {
      assert DomainList(ds) == Quote(ds[0]);
    } else {
      assert DomainList(ds) == Quote(ds[0]) + ", " + DomainList(ds[1..]) by {
        assert QuotedAll(ds)[1..] == QuotedAll(ds[1..]);
      }
    }
  }

  /** The closing quote of a quote-free domain is the first quote after the opening one. */
  lemma ClosingQuote(d: string, rest: string)
    requires NoQuote(d)
    ensures var s := "'" + d + "'" + rest;
      NextQuote(s, 1) == Some(|d| + 1) && s[1..|d| + 1] == d && s[|d| + 2..] == rest
  {
    var s := "'" + d + "'" + rest;
    assert s[1..|d| + 1] == d;
    assert s[|d| + 2..] == rest;
    NextQuoteFinds(s, 1, |d| + 1);
  }

  lemma DomainListSingle(d: string, tail: string)
    requires NoQuote(d)
    requires !SeparatorAhead(tail)
    ensures ParseDomainList(DomainList([d]) + tail) == Some(([d], tail))
  {
    assert QuotedAll([d]) == [Quote(d)];
    assert DomainList([d]) + tail == "'" + d + "'" + tail;
    ClosingQuote(d, tail);
  }

  lemma DomainListCons(ds: seq<string>)
    requires |ds| > 1
    ensures DomainList(ds) == "'" + ds[0] + "'" + ", " + DomainList(ds[1..])
  {
    assert QuotedAll(ds)[1..] == QuotedAll(ds[1..]);
  }

  lemma ParseDomainListCons(d: string, more: string, ds: seq<string>, tail: string)
    requires NoQuote(d)
    requires |more| > 0 && more[0] == '\''
    requires ParseDomainList(more) == Some((ds, tail))
    ensures ParseDomainList("'" + d + "'" + (", " + more)) == Some(([d] + ds, tail))
  {
    var rest := ", " + more;
    ClosingQuote(d, rest);
    assert SeparatorAhead(rest);
    assert rest[2..] == more;
  }

  /**
   * A non-empty list of domains free of single quotes is read back exactly,
   * whatever follows the list (short of another `, '`).
   */
  lemma {:induction false} DomainListRoundTrip(ds: seq<string>, tail: string)
    requires |ds| > 0 && forall i :: 0 <= i < |ds| ==> NoQuote(ds[i])
    requires !SeparatorAhead(tail)
    ensures ParseDomainList(DomainList(ds) + tail) == Some((ds, tail))
    decreases |ds|
  {
    var d := ds[0];
    if |ds| == 1 {
      DomainListSingle(d, tail);
      assert ds == [d];
    } else {
      var more := DomainList(ds[1..]) + tail;
      DomainListCons(ds);
      assert DomainList(ds) + tail == "'" + d + "'" + (", " + more);
      DomainListStartsWithQuote(ds[1..]);
      DomainListRoundTrip(ds[1..], tail);
      ParseDomainListCons(d, more, ds[1..], tail);
      assert [d] + ds[1..] == ds;
    }
  }

  /**
   * The filter carries the account id and the domain allow-list: both are read
   * back from it, an absent or empty list reading back as no domains.
   */
  lemma FilterRoundTrip(accountId: int, domains: Option<seq<string>>)
    requires domains.Some? ==> forall i :: 0 <= i < |domains.value| ==> NoQuote(domains.value[i])
    ensures DecodeFilter(Filter(accountId, domains))
         == Some((accountId, if HasDomains(domains) then domains.value else []))
  {
    DecimalRoundTrip(accountId);
    if HasDomains(domains) {
      var tail := AccountInfix + Decimal(accountId);
      assert !SeparatorAhead(tail) by {
        assert tail[0] == AccountInfix[0];
      }
      DomainListRoundTrip(domains.value, tail);
      StartsWithConcat(DomainPrefix, DomainList(domains.value) + tail);
      StartsWithConcat(AccountInfix, Decimal(accountId));
    } else {
      var f := Filter(accountId, domains);
      StartsWithConcat(AccountPrefix, Decimal(accountId));
      assert !StartsWith(f, DomainPrefix) by {
        assert f[0] == AccountPrefix[0];
      }
    }
  }

  lemma StartsWithConcat(p: string, x: string)
    ensures StartsWith(p + x, p) && (p + x)[|p|..] == x
  {
    assert (p + x)[..|p|] == p;
  }

  /**
   * Because nothing is escaped, a domain holding a quote can forge a second
   * list element: these two allow-lists give the same filter.
   */
  lemma DomainInjection()
    ensures Filter(1, Some(["APM', 'INFRA"])) == Filter(1, Some(["APM", "INFRA"]))
  {
    ForgedDomainList();
  }

  lemma ForgedDomainList()
    ensures DomainList(["APM', 'INFRA"]) == DomainList(["APM", "INFRA"])
  {
    var two, one := ["APM", "INFRA"], ["APM', 'INFRA"];
    var q2, q1 := QuotedAll(two), QuotedAll(one);
    assert |q2| == 2 && q2[0] == Quote("APM") && q2[1] == Quote("INFRA");
    assert q2[1..] == [Quote("INFRA")];
    assert |q1| == 1 && q1[0] == Quote("APM', 'INFRA");
    assert DomainList(two) == Quote("APM") + ", " + Quote("INFRA");
    assert DomainList(one) == Quote("APM', 'INFRA");
    assert "APM', 'INFRA" == "APM" + "'" + ", " + "'" + "INFRA";
  }

  lemma CursorSlotRoundTrip(cursor: Option<string>)
    ensures DecodeCursorSlot(CursorSlot(cursor)) == Some(cursor)
  {
    match cursor
    case None =>
    case Some(c) =>
      var s := CursorSlot(cursor);
      assert s[0] == '"' && s != "null";
      assert s[1..|s| - 1] == c;
  }

  /** Distinct cursors give distinct queries: the cursor reaches the request unaltered. */
  lemma QueryDeterminesCursor(accountId: int, domains: Option<seq<string>>, c1: Option<string>, c2: Option<string>)
    requires EntitiesQuery(accountId, domains, c1) == EntitiesQuery(accountId, domains, c2)
    ensures c1 == c2
  {
    var f := Filter(accountId, domains);
    var s1, s2 := CursorSlot(c1), CursorSlot(c2);
    CancelPrefix(QueryHead, f + (QueryMid + (s1 + QueryTail)), f + (QueryMid + (s2 + QueryTail)));
    CancelPrefix(f, QueryMid + (s1 + QueryTail), QueryMid + (s2 + QueryTail));
    CancelPrefix(QueryMid, s1 + QueryTail, s2 + QueryTail);
    CancelSuffix(s1, s2, QueryTail);
    CursorSlotRoundTrip(c1);
    CursorSlotRoundTrip(c2);
  }

  lemma FilterWithDomains(list: string, n: string)
    ensures var r := DomainPrefix + (list + (AccountInfix + n));
      StartsWith(r, DomainPrefix) && |AccountPrefix + n| <= |r| && r[|r| - |AccountPrefix + n|..] == AccountPrefix + n
  {
    StartsWithConcat(DomainPrefix, list + (AccountInfix + n));
    assert AccountInfix == ") AND " + AccountPrefix;
    assert DomainPrefix + (list + (AccountInfix + n)) == (DomainPrefix + list + ") AND ") + (AccountPrefix + n);
  }

  lemma FilterAccountOnly(n: string)
    ensures var r := AccountPrefix + n;
      !StartsWith(r, DomainPrefix) && r[|r| - |AccountPrefix + n|..] == AccountPrefix + n
  {
    var r := AccountPrefix + n;
    assert r[0] != DomainPrefix[0];
  }

  /** A template filled with a cursor argument that reads back as `cursor` satisfies `Template`. */
  lemma TemplateParts(head: string, filter: string, middle: string, slot: string, tail: string, cursor: Option<string>)
    requires DecodeCursorSlot(slot) == Some(cursor)
    ensures Template(head + (filter + (middle + (slot + tail))), head, filter, middle, tail, cursor)
  {
    var x := filter + (middle + (slot + tail));
    StartsWithConcat(head, x);
    StartsWithConcat(filter, middle + (slot + tail));
    SliceAfter(head, x, 0, |filter|);
    SliceAfter(head, x, |filter|, |filter| + |middle|);
    SliceAfter(filter, middle + (slot + tail), 0, |middle|);
    StartsWithConcat(middle, slot + tail);
    SlotAndTail(head, filter, middle, slot, tail);
  }

  /** Where the cursor argument and the tail sit in the filled template. */
  lemma SlotAndTail(head: string, filter: string, middle: string, slot: string, tail: string)
    ensures var q := head + (filter + (middle + (slot + tail)));
      && q[|head| + |filter| + |middle|..|q| - |tail|] == slot
      && q[|q| - |tail|..] == tail
  {
    var st := slot + tail;
    var mst := middle + st;
    var x := filter + mst;
    StartsWithConcat(slot, tail);
    SliceAfter(head, x, |filter| + |middle|, |x| - |tail|);
    SliceAfter(filter, mst, |middle|, |mst| - |tail|);
    SliceAfter(middle, st, 0, |slot|);
    SliceAfter(head, x, |x| - |tail|, |x|);
    SliceAfter(filter, mst, |mst| - |tail|, |mst|);
    SliceAfter(middle, st, |slot|, |st|);
  }

  /** A slice of `p + x` past `p` is a slice of `x`. */
  lemma SliceAfter(p: string, x: string, i: nat, j: nat)
    requires i <= j <= |x|
    ensures (p + x)[|p| + i..|p| + j] == x[i..j]
  {
  }

  lemma CancelPrefix(p: string, x: string, y: string)
    requires p + x == p + y
    ensures x == y
  {
    assert x == (p + x)[|p|..];
  }

  lemma CancelSuffix(x: string, y: string, q: string)
    requires x + q == y + q
    ensures x == y
  {
    assert |x| == |y|;
    assert x == (x + q)[..|x|];
  }
}
