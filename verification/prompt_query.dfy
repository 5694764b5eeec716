/**
 * `getAllPrompts`: active prompts in a price range, newest first, one page at
 * a time, with the total and the page count. The `$text` search and
 * `populate` are not modelled.
 */
module PromptQuery {
  import opened Wrappers
  import opened Http
  import opened PromptModel
  import Users

  /**
   * The query string after `parseInt`. For `page` and `limit`, `None` is a
   * missing or unparsable value (NaN); for the prices, `None` is a missing or
   * empty parameter.
   */
  datatype ListQuery = ListQuery(page: Option<int>, limit: Option<int>, range: PriceRange)

  /** `minPrice` and `maxPrice` after `parseInt`. */
  datatype PriceRange = PriceRange(minPrice: Option<int>, maxPrice: Option<int>)

  const DefaultPage: int := 1
  const DefaultLimit: int := 10

  /** `parseInt(v, 10) || d`: NaN and 0 are falsy and fall back to `d`. */
  function OrDefault(v: Option<int>, d: int): int {
    if v.None? || v.value == 0 then d else v.value
  }

  /**
   * A usable value is kept, anything falsy falls back to the default, and
   * with a non-zero default the result is never 0.
   */
  lemma OrDefaultFallsBack(v: Option<int>, d: int)
    ensures d != 0 ==> OrDefault(v, d) != 0
    ensures v.Some? && v.value != 0 ==> OrDefault(v, d) == v.value
    ensures OrDefault(v, d) != d ==> v == Some(OrDefault(v, d))
  {
  }

  /** The filter `{status: 'active', 'price.regular': {$gte: minPrice, $lte: maxPrice}}`. */
  predicate Matches(p: Prompt, q: PriceRange)
    ensures Matches(p, q) ==> p.status == Active
    ensures q.minPrice.None? && q.maxPrice.None? ==> (Matches(p, q) <==> p.status == Active)
    ensures Matches(p, q) && q.minPrice.Some? && q.maxPrice.Some? ==> q.minPrice.value <= q.maxPrice.value
  {
    && p.status == Active
    && (q.minPrice.Some? ==> p.price.regular >= q.minPrice.value as real)
    && (q.maxPrice.Some? ==> p.price.regular <= q.maxPrice.value as real)
  }

  /** The ids of all prompts the filter selects. */
  ghost function MatchingIds(s: PromptStore, q: PriceRange): set<Users.Id> {
    set id | id in s.byId && Matches(s.byId[id], q)
  }

  /**
   * The selected ids below `n`, newest first: ids are issued in creation
   * order, so `sort({createdAt: -1})` is descending id order.
   */
  function NewestFirst(m: map<Users.Id, Prompt>, q: PriceRange, n: nat): (ids: seq<Users.Id>)
    ensures forall j :: 0 <= j < |ids| ==> ids[j] < n && ids[j] in m && Matches(m[ids[j]], q)
    ensures forall j, k :: 0 <= j < k < |ids| ==> ids[j] > ids[k]
    ensures forall id :: id < n && id in m && Matches(m[id], q) ==> id in ids
  {
    if n == 0 then []
    else
      var rest := NewestFirst(m, q, n - 1);
      if n - 1 in m && Matches(m[n - 1], q) then [n - 1] + rest else rest
  }

  /** A sequence without repetitions has as many elements as the set of its elements. */
  lemma {:induction false} DistinctCardinality(ids: seq<Users.Id>)
    requires forall j, k :: 0 <= j < k < |ids| ==> ids[j] != ids[k]
    ensures |set j | 0 <= j < |ids| :: ids[j]| == |ids|
  {
    if ids != [] {
      var rest := ids[1..];
      DistinctCardinality(rest);
      var all := set j | 0 <= j < |ids| :: ids[j];
      var tail := set j | 0 <= j < |rest| :: rest[j];
      assert all == {ids[0]} + tail by {
        forall x | x in all ensures x in {ids[0]} + tail {
          var j :| 0 <= j < |ids| && ids[j] == x;
          if j > 0 {
            assert rest[j - 1] == x;
          }
        }
      }
      assert ids[0] !in tail by {
        forall j | 0 <= j < |rest| ensures rest[j] != ids[0] {
          assert rest[j] == ids[j + 1];
        }
      }
    }
  }

  /** In a store whose ids were all issued, the newest-first list holds exactly the matching ids. */
  lemma NewestFirstCountsMatches(s: PromptStore, q: PriceRange)
    requires IdsIssued(s)
    ensures |NewestFirst(s.byId, q, s.nextId)| == |MatchingIds(s, q)|
  {
    var ids := NewestFirst(s.byId, q, s.nextId);
    DistinctCardinality(ids);
    assert (set j | 0 <= j < |ids| :: ids[j]) == MatchingIds(s, q);
  }

  /** `Math.ceil(total / limit)`. */
  function CeilDiv(total: int, limit: int): (pages: int)
    requires limit != 0
    ensures limit > 0 ==> (pages - 1) * limit < total <= pages * limit
  {
    CeilBounds(total, limit);
    -(-(total as real) / limit as real).Floor
  }

  lemma CeilBounds(total: int, limit: int)
    requires limit != 0
    ensures var pages := -(-(total as real) / limit as real).Floor;
      limit > 0 ==> (pages - 1) * limit < total <= pages * limit
  {
    if limit > 0 {
      var q, m := (-total) / limit, (-total) % limit;
      var l := limit as real;
      assert (-(total as real)) / l == q as real + m as real / l by {
        assert (-total) as real == q as real * l + m as real;
      }
      assert 0.0 <= m as real / l < 1.0;
      assert (-(total as real) / l).Floor == q;
    }
  }

  /** A stored prompt with its id, as `find` returns it. */
  datatype Entry = Entry(id: Users.Id, prompt: Prompt)

  /** The reply of `getAllPrompts`. */
  datatype Listing = Listing(count: nat, total: nat, page: int, pages: int, data: seq<Entry>)

  function Abs(x: int): nat {
    if x < 0 then -x else x
  }

  function Min(a: int, b: int): int {
    if a <= b then a else b
  }

  /** The `size` ids that follow the first `skip` ones (fewer at the end of `all`). */
  function Slice(all: seq<Users.Id>, skip: nat, size: nat): (ids: seq<Users.Id>)
    ensures |ids| == Min(size, if skip <= |all| then |all| - skip else 0)
    ensures forall j :: 0 <= j < |ids| ==> ids[j] == all[skip + j]
  {
    if skip >= |all| then [] else all[skip..Min(skip + size, |all|)]
  }

  function Entries(s: PromptStore, ids: seq<Users.Id>): (es: seq<Entry>)
    requires forall j :: 0 <= j < |ids| ==> ids[j] in s.byId
    ensures |es| == |ids|
    ensures forall j :: 0 <= j < |ids| ==> es[j] == Entry(ids[j], s.byId[ids[j]])
  {
    seq(|ids|, j requires 0 <= j < |ids| => Entry(ids[j], s.byId[ids[j]]))
  }

  /** The page asked for, after defaulting. */
  function PageOf(q: ListQuery): int {
    OrDefault(q.page, DefaultPage)
  }

  /** The limit asked for, after defaulting; never 0. */
  function LimitOf(q: ListQuery): (limit: int)
    ensures limit != 0
  {
    OrDefault(q.limit, DefaultLimit)
  }

  /** `startIndex = (page - 1) * limit`. */
  function SkipOf(q: ListQuery): int {
    (PageOf(q) - 1) * LimitOf(q)
  }

  /**
   * The skip is negative, and the listing fails, exactly when the page is
   * below 1 with a positive limit or above 1 with a negative limit.
   */
  lemma NegativeSkipIff(q: ListQuery)
    ensures PageOf(q) == 1 ==> SkipOf(q) == 0
    ensures SkipOf(q) < 0 <==> (PageOf(q) < 1 && LimitOf(q) > 0) || (PageOf(q) > 1 && LimitOf(q) < 0)
  {
    var p, l := PageOf(q) - 1, LimitOf(q);
    if p > 0 && l > 0 {
      assert p * l > 0;
    } else if p < 0 && l < 0 {
      assert p * l == (-p) * (-l);
    }
  }

  /**
   * getAllPrompts. `page` and `limit` default to 1 and 10; the page skips
   * `(page - 1) * limit` prompts of the newest-first order (MongoDB refuses a
   * negative skip) and returns at most `|limit|` (a negative limit asks the
   * driver for one batch of that size).
   */
  function ListPrompts(s: PromptStore, q: ListQuery): (r: Response<Listing>)
    ensures r.Fail? <==> SkipOf(q) < 0
    ensures r.Fail? ==> r.error == Thrown(NegativeSkip)
    ensures r.Reply? ==>
      var all := NewestFirst(s.byId, q.range, s.nextId);
      && r.status == 200
      && r.body.page == PageOf(q)
      && r.body.count == |r.body.data| <= Abs(LimitOf(q))
      && r.body.total == |all|
      && r.body.pages == CeilDiv(r.body.total, LimitOf(q))
      && |r.body.data| == Min(Abs(LimitOf(q)), if SkipOf(q) <= |all| then |all| - SkipOf(q) else 0)
      && (forall j :: 0 <= j < |r.body.data| ==>
            var e := r.body.data[j];
            e.id == all[SkipOf(q) + j] && e.id in s.byId && e.prompt == s.byId[e.id] && Matches(e.prompt, q.range))
      && (forall j, k :: 0 <= j < k < |r.body.data| ==> r.body.data[j].id > r.body.data[k].id)
  {
    var skip := SkipOf(q);
    if skip < 0 then Fail(Thrown(NegativeSkip))
    else
      var all := NewestFirst(s.byId, q.range, s.nextId);
      var data := Entries(s, Slice(all, skip, Abs(LimitOf(q))));
      Reply(200, Listing(|data|, |all|, PageOf(q), CeilDiv(|all|, LimitOf(q)), data))
  }

  /** `total` counts exactly the prompts the filter selects. */
  lemma ListTotalCountsMatches(s: PromptStore, q: ListQuery)
    requires IdsIssued(s)
    requires ListPrompts(s, q).Reply?
    ensures ListPrompts(s, q).body.total == |MatchingIds(s, q.range)|
  {
    NewestFirstCountsMatches(s, q.range);
  }

  /** Without `page` and `limit` the reply is the first page of at most ten prompts. */
  lemma DefaultPaging(s: PromptStore, q: ListQuery)
    requires q.page.None? && q.limit.None?
    ensures ListPrompts(s, q).Reply?
    ensures ListPrompts(s, q).body.page == 1 && |ListPrompts(s, q).body.data| <= 10
  {
  }

  /**
   * Paging reaches everything: with a positive limit, the `j`-th matching
   * prompt (newest first) is entry `j % limit` of page `j / limit + 1`.
   */
  lemma EveryMatchOnSomePage(s: PromptStore, q: ListQuery, j: nat)
    requires LimitOf(q) > 0
    requires j < |NewestFirst(s.byId, q.range, s.nextId)|
    ensures var r := ListPrompts(s, q.(page := Some(j / LimitOf(q) + 1)));
      && r.Reply?
      && j % LimitOf(q) < |r.body.data|
      && r.body.data[j % LimitOf(q)].id == NewestFirst(s.byId, q.range, s.nextId)[j]
  {
    var limit := LimitOf(q);
    var all := NewestFirst(s.byId, q.range, s.nextId);
    PageArithmetic(j, limit, |all|, CeilDiv(|all|, limit));
    OnPage(s, q, j / limit, j % limit, j);
  }

  /** Entry `k` of page `d + 1` is match number `i == d * limit + k`, when there is one. */
  lemma OnPage(s: PromptStore, q: ListQuery, d: nat, k: nat, i: nat)
    requires 0 <= k < LimitOf(q) && i == d * LimitOf(q) + k
    requires i < |NewestFirst(s.byId, q.range, s.nextId)|
    ensures var r := ListPrompts(s, q.(page := Some(d + 1)));
      && r.Reply?
      && k < |r.body.data|
      && r.body.data[k].id == NewestFirst(s.byId, q.range, s.nextId)[i]
  {
    var q' := q.(page := Some(d + 1));
    PageSkip(q, d);
    assert q'.range == q.range;
    PageHolds(s, q', k, i);
  }

  /** Page `d + 1` skips `d * limit` matches. */
  lemma PageSkip(q: ListQuery, d: nat)
    ensures SkipOf(q.(page := Some(d + 1))) == d * LimitOf(q)
    ensures LimitOf(q.(page := Some(d + 1))) == LimitOf(q)
  {
    var q' := q.(page := Some(d + 1));
    assert PageOf(q') == d + 1 && LimitOf(q') == LimitOf(q);
  }

  /** A page that skips `SkipOf(q)` matches shows match `SkipOf(q) + k` at position `k`. */
  lemma PageHolds(s: PromptStore, q: ListQuery, k: nat, i: nat)
    requires 0 <= SkipOf(q) && 0 <= k < LimitOf(q) && i == SkipOf(q) + k
    requires i < |NewestFirst(s.byId, q.range, s.nextId)|
    ensures var r := ListPrompts(s, q);
      && r.Reply?
      && k < |r.body.data|
      && r.body.data[k].id == NewestFirst(s.byId, q.range, s.nextId)[i]
  {
    var all, skip, limit := NewestFirst(s.byId, q.range, s.nextId), SkipOf(q), LimitOf(q);
    var r := ListPrompts(s, q);
    assert r.Reply?;
    assert Abs(limit) == limit && skip <= |all|;
    assert |r.body.data| == Min(limit, |all| - skip);
    assert r.body.data[k].id == all[skip + k];
  }

  /** ... and that page is one of the `pages` the reply announces. */
  lemma PageOfEveryMatchCounted(s: PromptStore, q: ListQuery, j: nat)
    requires LimitOf(q) > 0
    requires j < |NewestFirst(s.byId, q.range, s.nextId)|
    ensures var r := ListPrompts(s, q.(page := Some(j / LimitOf(q) + 1)));
      r.Reply? && 1 <= j / LimitOf(q) + 1 <= r.body.pages
  {
    var limit := LimitOf(q);
    var all := NewestFirst(s.byId, q.range, s.nextId);
    var q' := q.(page := Some(j / limit + 1));
    assert q'.range == q.range && LimitOf(q') == limit;
    PageArithmetic(j, limit, |all|, CeilDiv(|all|, limit));
    assert SkipOf(q') == (j / limit) * limit;
  }

  /** Integer facts behind `EveryMatchOnSomePage`. */
  lemma PageArithmetic(j: nat, limit: int, total: int, pages: int)
    requires limit > 0 && j < total
    requires (pages - 1) * limit < total <= pages * limit
    ensures 0 <= (j / limit) * limit && (j / limit) * limit + j % limit == j
    ensures 0 <= j % limit < limit
    ensures 0 <= j / limit && j / limit + 1 <= pages
  {
    var d := j / limit;
    assert d * limit <= j;
  }
}
