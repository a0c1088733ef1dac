/** The server's playback ordering maintenance in the v1.2 asset views: on
    create and on update the list of active asset ids is rebuilt, the edited
    id is taken out and put back at its `play_order`, and the result is handed
    to the ordering store. Database access is not modelled: what the asset
    helper reads or writes is given as parameters, and the list passed to
    `save_ordering` is the result. */
module ActiveOrdering {
  import opened AssetModel

  /** What the views use of an asset record returned by the asset helper. */
  datatype StoredAsset = StoredAsset(asset_id: AssetId, is_active: bool, play_order: int)

  /** The exceptions a view raises before anything is saved. */
  datatype ViewError = AssetNotFound | UrlUnreachable

  /** How a view ends: the ordering it saved, or the exception it raised. */
  datatype Outcome = Saved(ordering: seq<AssetId>) | Raised(error: ViewError)

  function AllIds(assets: seq<StoredAsset>): (ids: seq<AssetId>)
    ensures |ids| == |assets|
    ensures forall i :: 0 <= i < |assets| ==> ids[i] == assets[i].asset_id
  {
    seq(|assets|, i requires 0 <= i < |assets| => assets[i].asset_id)
  }

  /** `[x['asset_id'] for x in assets if x['is_active']]`. */
  function ActiveIds(assets: seq<StoredAsset>): (ids: seq<AssetId>)
    ensures |ids| <= |assets|
  {
    if assets == [] then []
    else (if assets[0].is_active then [assets[0].asset_id] else []) + ActiveIds(assets[1..])
  }

  /** The comprehension keeps exactly the ids of the active assets. */
  lemma {:induction false} ActiveIdsMembers(assets: seq<StoredAsset>, x: AssetId)
    ensures x in ActiveIds(assets) <==>
      exists i :: 0 <= i < |assets| && assets[i].is_active && assets[i].asset_id == x
  {
    if assets != [] {
      var tail := assets[1..];
      ActiveIdsMembers(tail, x);
      if x in ActiveIds(tail) {
        var i :| 0 <= i < |tail| && tail[i].is_active && tail[i].asset_id == x;
        assert assets[i + 1] == tail[i];
      }
      if exists i :: 0 <= i < |assets| && assets[i].is_active && assets[i].asset_id == x {
        var i :| 0 <= i < |assets| && assets[i].is_active && assets[i].asset_id == x;
        if i > 0 {
          assert tail[i - 1] == assets[i];
        }
      }
    }
  }

  /** The comprehension keeps read order: it maps concatenation of reads to
      concatenation of id lists. */
  lemma {:induction false} ActiveIdsConcat(a: seq<StoredAsset>, b: seq<StoredAsset>)
    ensures ActiveIds(a + b) == ActiveIds(a) + ActiveIds(b)
  {
    if a == [] {
      assert a + b == b;
    } else {
      var head := if a[0].is_active then [a[0].asset_id] else [];
      assert (a + b)[0] == a[0] && (a + b)[1..] == a[1..] + b;
      ActiveIdsConcat(a[1..], b);
      ConcatAssociative(head, ActiveIds(a[1..]), ActiveIds(b));
    }
  }

  /** Ids read from the table are primary keys, so the active list repeats none. */
  lemma {:induction false} ActiveIdsUnique(assets: seq<StoredAsset>)
    requires NoDuplicates(AllIds(assets))
    ensures NoDuplicates(ActiveIds(assets))
  {
    if assets != [] {
      assert AllIds(assets[1..]) == AllIds(assets)[1..];
      ActiveIdsUnique(assets[1..]);
      var tail := assets[1..];
      forall i | 0 <= i < |tail|
        ensures tail[i].asset_id != assets[0].asset_id
      {
        assert AllIds(assets)[0] != AllIds(assets)[i + 1];
      }
      ActiveIdsMembers(tail, assets[0].asset_id);
    }
  }

  /** The list with every occurrence of `x` dropped: the ids "other than" `x`, in order. */
  function Without(xs: seq<AssetId>, x: AssetId): (r: seq<AssetId>)
    ensures x !in r
    ensures x !in xs ==> r == xs
  {
    if xs == [] then []
    else (if xs[0] == x then [] else [xs[0]]) + Without(xs[1..], x)
  }

  /** Dropping `x` keeps every other id that occurs, and adds none. */
  lemma {:induction false} WithoutMembers(xs: seq<AssetId>, x: AssetId, y: AssetId)
    requires y != x
    ensures y in Without(xs, x) <==> y in xs
  {
    if xs != [] {
      WithoutMembers(xs[1..], x, y);
      assert xs == [xs[0]] + xs[1..];
    }
  }

  lemma {:induction false} WithoutConcat(a: seq<AssetId>, b: seq<AssetId>, x: AssetId)
    ensures Without(a + b, x) == Without(a, x) + Without(b, x)
  {
    if a == [] {
      assert a + b == b;
    } else {
      var head := if a[0] == x then [] else [a[0]];
      assert (a + b)[0] == a[0] && (a + b)[1..] == a[1..] + b;
      WithoutConcat(a[1..], b, x);
      ConcatAssociative(head, Without(a[1..], x), Without(b, x));
    }
  }

  /** `list.index(x)`: the position of the first occurrence of `x`. */
  function IndexOf(xs: seq<AssetId>, x: AssetId): (i: nat)
    requires x in xs
    ensures i < |xs| && xs[i] == x && x !in xs[..i]
  {
    if xs[0] == x then 0
    else
      var k := IndexOf(xs[1..], x);
      assert xs[..k + 1] == [xs[0]] + xs[1..][..k];
      k + 1
  }

  /** `list.remove(x)`: drop the first occurrence of `x`; `None` stands for the
      `ValueError` raised when `x` is absent. */
  function ListRemove(xs: seq<AssetId>, x: AssetId): (r: Option<seq<AssetId>>)
    ensures r.None? <==> x !in xs
    ensures r.Some? ==> r.value == xs[..IndexOf(xs, x)] + xs[IndexOf(xs, x) + 1..]
    ensures r.Some? ==> |r.value| == |xs| - 1
    ensures r.Some? ==> multiset(r.value) == multiset(xs) - multiset{x}
    ensures r.Some? ==> Without(r.value, x) == Without(xs, x)
  {
    if x !in xs then None
    else
      var i := IndexOf(xs, x);
      var before, after := xs[..i], xs[i + 1..];
      assert xs == before + [x] + after;
      SpliceFacts(before, after, x);
      Some(before + after)
  }

  /** Putting `x` between `a` and `b` adds one `x` and nothing else. */
  lemma SpliceFacts(a: seq<AssetId>, b: seq<AssetId>, x: AssetId)
    ensures multiset(a + [x] + b) == multiset(a + b) + multiset{x}
    ensures Without(a + [x] + b, x) == Without(a + b, x)
  {
    assert multiset(a + [x] + b) == multiset(a) + multiset{x} + multiset(b);
    SpliceWithout(a, b, x);
  }

  lemma SpliceWithout(a: seq<AssetId>, b: seq<AssetId>, x: AssetId)
    ensures Without(a + [x] + b, x) == Without(a + b, x)
  {
    WithoutConcat(a + [x], b, x);
    WithoutConcat(a, [x], x);
    assert Without([x], x) == [];
    assert Without(a, x) + [] == Without(a, x);
    WithoutConcat(a, b, x);
  }

  /** Where CPython's `list.insert(i, x)` puts `x` in a list of length `n`:
      a negative index counts from the end, and an index outside the list is
      clamped to its nearer end. */
  function InsertIndex(i: int, n: nat): (k: nat)
    ensures k <= n
    ensures 0 <= i <= n ==> k == i
    ensures n <= i ==> k == n
    ensures i < 0 && 0 <= n + i ==> k == n + i
    ensures n + i < 0 ==> k == 0
  {
    if i < 0 then (if i + n < 0 then 0 else i + n)
    else if i > n then n
    else i
  }

  /** `list.insert(i, x)`. */
  function ListInsert(xs: seq<AssetId>, i: int, x: AssetId): (r: seq<AssetId>)
    ensures |r| == |xs| + 1
    ensures r[InsertIndex(i, |xs|)] == x
    ensures r[..InsertIndex(i, |xs|)] == xs[..InsertIndex(i, |xs|)]
    ensures r[InsertIndex(i, |xs|) + 1..] == xs[InsertIndex(i, |xs|)..]
    ensures multiset(r) == multiset(xs) + multiset{x}
    ensures Without(r, x) == Without(xs, x)
  {
    var k := InsertIndex(i, |xs|);
    SpliceFacts(xs[..k], xs[k..], x);
    assert xs == xs[..k] + xs[k..];
    xs[..k] + [x] + xs[k..]
  }

  /** Inserting at or past the end appends. */
  lemma InsertPastEndAppends(xs: seq<AssetId>, i: int, x: AssetId)
    requires i >= |xs|
    ensures ListInsert(xs, i, x) == xs + [x]
  {
  }

  /** A list is free of repeats with `x` spliced in exactly when it is free
      of repeats and of `x` without it. */
  lemma NoDuplicatesSplice(a: seq<AssetId>, b: seq<AssetId>, x: AssetId)
    ensures NoDuplicates(a + [x] + b) <==> NoDuplicates(a + b) && x !in a + b
  {
    if NoDuplicates(a + [x] + b) {
      SpliceOutKeepsUnique(a, b, x);
    }
    if NoDuplicates(a + b) && x !in a + b {
      SpliceInKeepsUnique(a, b, x);
    }
  }

  lemma SpliceOutKeepsUnique(a: seq<AssetId>, b: seq<AssetId>, x: AssetId)
    requires NoDuplicates(a + [x] + b)
    ensures NoDuplicates(a + b) && x !in a + b
  {
    var s, r := a + [x] + b, a + b;
    assert s[|a|] == x;
    forall p | 0 <= p < |r| ensures r[p] == s[if p < |a| then p else p + 1] {
    }
    forall p, q | 0 <= p < q < |r| ensures r[p] != r[q] {
      assert r[p] == s[if p < |a| then p else p + 1];
      assert r[q] == s[if q < |a| then q else q + 1];
    }
    forall p | 0 <= p < |r| ensures r[p] != x {
      assert r[p] == s[if p < |a| then p else p + 1];
    }
  }

  lemma SpliceInKeepsUnique(a: seq<AssetId>, b: seq<AssetId>, x: AssetId)
    requires NoDuplicates(a + b) && x !in a + b
    ensures NoDuplicates(a + [x] + b)
  {
    var s, r := a + [x] + b, a + b;
    assert s[|a|] == x;
    forall p | 0 <= p < |s| && p != |a| ensures s[p] == r[if p < |a| then p else p - 1] {
    }
    forall p, q | 0 <= p < q < |s| ensures s[p] != s[q] {
      if p != |a| && q != |a| {
        assert s[p] == r[if p < |a| then p else p - 1];
        assert s[q] == r[if q < |a| then q else q - 1];
      } else if p == |a| {
        assert s[q] == r[q - 1];
      } else {
        assert s[p] == r[p];
      }
    }
  }

  lemma NoDuplicatesRemove(xs: seq<AssetId>, x: AssetId)
    requires NoDuplicates(xs) && x in xs
    ensures NoDuplicates(ListRemove(xs, x).value) && x !in ListRemove(xs, x).value
  {
    var i := IndexOf(xs, x);
    var before, after := xs[..i], xs[i + 1..];
    assert xs == before + [x] + after;
    assert ListRemove(xs, x).value == before + after;
    NoDuplicatesSplice(before, after, x);
  }

  lemma NoDuplicatesInsert(xs: seq<AssetId>, i: int, x: AssetId)
    requires NoDuplicates(xs) && x !in xs
    ensures NoDuplicates(ListInsert(xs, i, x))
  {
    var k := InsertIndex(i, |xs|);
    var before, after := xs[..k], xs[k..];
    assert xs == before + after;
    assert ListInsert(xs, i, x) == before + [x] + after;
    NoDuplicatesSplice(before, after, x);
  }

  /** What an update promises of the saved ordering, given the active-id list
      read before the update and the asset record written by it:
      - the ids other than the edited one keep their order (and multiplicity);
      - one occurrence of the edited id is taken out, and one put back exactly
        when the asset is active, at the position `list.insert` picks in the
        shortened list;
      - a list without repeats stays without repeats, and then the edited id
        is in it exactly when the asset is active. */
  ghost predicate RepositionedAfterEdit(active: seq<AssetId>, edited: StoredAsset, ordering: seq<AssetId>) {
    var e := edited.asset_id;
    var shortened := if e in active then |active| - 1 else |active|;
    && Without(ordering, e) == Without(active, e)
    && multiset(ordering) == multiset(active) - multiset{e} + (if edited.is_active then multiset{e} else multiset{})
    && |ordering| == shortened + (if edited.is_active then 1 else 0)
    && (edited.is_active ==> ordering[InsertIndex(edited.play_order, shortened)] == e)
    && (NoDuplicates(active) ==> NoDuplicates(ordering) && (e in ordering <==> edited.is_active))
  }

  /** The shared step of `patch` and `put`: remove the edited id, ignoring the
      `ValueError` of an absent one, and reinsert it at its `play_order` when
      the updated asset is active. */
  method Reposition(active: seq<AssetId>, edited: StoredAsset) returns (ordering: seq<AssetId>)
    ensures RepositionedAfterEdit(active, edited, ordering)
  {
    ordering := active;
    var removed := ListRemove(ordering, edited.asset_id);
    if removed.Some? {
      ordering := removed.value;
    }
    if edited.is_active {
      ordering := ListInsert(ordering, edited.play_order, edited.asset_id);
    }
    RepositionFacts(active, edited, ordering);
  }

  lemma RepositionFacts(active: seq<AssetId>, edited: StoredAsset, ordering: seq<AssetId>)
    requires var removed := ListRemove(active, edited.asset_id);
             var shortened := if removed.Some? then removed.value else active;
             ordering == if edited.is_active then ListInsert(shortened, edited.play_order, edited.asset_id) else shortened
    ensures RepositionedAfterEdit(active, edited, ordering)
  {
    var e := edited.asset_id;
    var removed := ListRemove(active, e);
    var shortened := if removed.Some? then removed.value else active;
    assert |shortened| == if e in active then |active| - 1 else |active|;
    assert multiset(shortened) == multiset(active) - multiset{e} by {
      if e !in active {
        assert multiset(active)[e] == 0;
      }
    }
    assert Without(shortened, e) == Without(active, e);
    assert NoDuplicates(active) ==> NoDuplicates(shortened) && e !in shortened by {
      if NoDuplicates(active) && e in active {
        NoDuplicatesRemove(active, e);
      }
    }
    if edited.is_active {
      assert NoDuplicates(active) ==> NoDuplicates(ordering) by {
        if NoDuplicates(active) {
          NoDuplicatesInsert(shortened, edited.play_order, e);
        }
      }
    } else {
      assert NoDuplicates(active) ==> e !in ordering;
    }
  }

  /** `AssetListViewV1_2.post`: after the URL check, the created asset's id
      is inserted among the active ids when it is active. */
  method Post(skipAssetCheck: bool, urlFails: bool, assets: seq<StoredAsset>, created: StoredAsset)
    returns (r: Outcome)
    ensures r.Raised? <==> !skipAssetCheck && urlFails
    ensures r.Raised? ==> r.error == UrlUnreachable
    ensures r.Saved? && !created.is_active ==> r.ordering == ActiveIds(assets)
    ensures r.Saved? && created.is_active ==>
      && |r.ordering| == |ActiveIds(assets)| + 1
      && r.ordering[InsertIndex(created.play_order, |ActiveIds(assets)|)] == created.asset_id
      && Without(r.ordering, created.asset_id) == Without(ActiveIds(assets), created.asset_id)
    ensures r.Saved? && created.asset_id !in ActiveIds(assets) ==>
      && Without(r.ordering, created.asset_id) == ActiveIds(assets)
      && (NoDuplicates(ActiveIds(assets)) ==> NoDuplicates(r.ordering))
  {
    if !skipAssetCheck && urlFails {
      return Raised(UrlUnreachable);
    }
    var ids := ActiveIds(assets);
    if created.is_active {
      if NoDuplicates(ids) && created.asset_id !in ids {
        NoDuplicatesInsert(ids, created.play_order, created.asset_id);
      }
      ids := ListInsert(ids, created.play_order, created.asset_id);
    }
    return Saved(ids);
  }

  /** `AssetViewV1_2.patch`: a missing asset raises before anything is read or
      saved; otherwise the active ids read before the update are repositioned
      around the updated record. */
  method Patch(existing: Option<StoredAsset>, assets: seq<StoredAsset>, updated: StoredAsset)
    returns (r: Outcome)
    ensures r.Raised? <==> existing.None?
    ensures r.Raised? ==> r.error == AssetNotFound
    ensures r.Saved? ==> RepositionedAfterEdit(ActiveIds(assets), updated, r.ordering)
  {
    if existing.None? {
      return Raised(AssetNotFound);
    }
    var ids := ActiveIds(assets);
    ids := Reposition(ids, updated);
    return Saved(ids);
  }

  /** `AssetViewV1_2.put`: the same repositioning, without the existence check. */
  method Put(assets: seq<StoredAsset>, updated: StoredAsset) returns (ordering: seq<AssetId>)
    ensures RepositionedAfterEdit(ActiveIds(assets), updated, ordering)
  {
    var ids := ActiveIds(assets);
    ordering := Reposition(ids, updated);
  }
}
