/** The client-side asset collection: the `assets` slice of the Redux store.
    Each reducer case is a method that updates the store's fields in place,
    as the Immer-backed reducers do. The thunks that produce the payloads are
    not part of this model: their payloads are method parameters. */
module AssetsListSlice {
  import opened AssetModel

  /** Lifecycle of the most recent full fetch. */
  datatype Status = Idle | Loading | Succeeded | Failed

  const DefaultFetchError: string := "Failed to fetch assets"

  /** The error recorded for a rejected fetch: `message || 'Failed to fetch
      assets'`, where an absent message and an empty one are both falsy. */
  function RejectionMessage(message: Option<string>): (error: string)
    ensures error != []
    ensures message.Some? && message.value != [] ==> error == message.value
    ensures message.None? || message.value == [] ==> error == DefaultFetchError
  {
    match message
    case Some(m) => if m != [] then m else DefaultFetchError
    case None => DefaultFetchError
  }

  /** `items[i]` is the item that `items.find(item => item.asset_id === assetId)`
      returns: the first one carrying that id. */
  predicate IsFirstMatch(items: seq<Asset>, assetId: AssetId, i: int) {
    && 0 <= i < |items|
    && items[i].asset_id == assetId
    && forall j :: 0 <= j < i ==> items[j].asset_id != assetId
  }

  /** Position of the item `find` locates, if any. */
  function FirstIndex(items: seq<Asset>, assetId: AssetId): (r: Option<nat>)
    ensures r.Some? ==> IsFirstMatch(items, assetId, r.value)
    ensures r.None? ==> assetId !in Ids(items)
  {
    if items == [] then None
    else if items[0].asset_id == assetId then Some(0)
    else
      match FirstIndex(items[1..], assetId)
      case None => None
      case Some(k) => Some(k + 1)
  }

  /** The item list after a fulfilled toggle: the first item with the id gets
      the new `is_enabled` and `play_order`; every other item, and every other
      field of that item, stays as it was. */
  function ToggledItems(items: seq<Asset>, assetId: AssetId, newValue: int, playOrder: int): (r: seq<Asset>)
    ensures |r| == |items|
    ensures forall i :: 0 <= i < |items| ==>
      r[i] == if IsFirstMatch(items, assetId, i)
              then items[i].(is_enabled := newValue, play_order := playOrder)
              else items[i]
    ensures assetId !in Ids(items) ==> r == items
  {
    match FirstIndex(items, assetId)
    case None => items
    case Some(k) => items[k := items[k].(is_enabled := newValue, play_order := playOrder)]
  }

  /** Which item is the first match depends on the ids alone. */
  lemma FirstMatchFollowsIds(a: seq<Asset>, b: seq<Asset>, assetId: AssetId, i: int)
    requires Ids(a) == Ids(b)
    ensures IsFirstMatch(a, assetId, i) <==> IsFirstMatch(b, assetId, i)
  {
    assert |a| == |b|;
    assert forall j :: 0 <= j < |a| ==> a[j].asset_id == Ids(a)[j] == Ids(b)[j] == b[j].asset_id;
  }

  /** A toggle keeps the length, the order and the id of every item. */
  lemma ToggleKeepsIds(items: seq<Asset>, assetId: AssetId, newValue: int, playOrder: int)
    ensures Ids(ToggledItems(items, assetId, newValue, playOrder)) == Ids(items)
  {
    var r := ToggledItems(items, assetId, newValue, playOrder);
    assert forall i :: 0 <= i < |items| ==> Ids(r)[i] == Ids(items)[i];
  }

  /** A toggle never introduces a repeated id. */
  lemma ToggleKeepsIdsUnique(items: seq<Asset>, assetId: AssetId, newValue: int, playOrder: int)
    requires NoDuplicates(Ids(items))
    ensures NoDuplicates(Ids(ToggledItems(items, assetId, newValue, playOrder)))
  {
    ToggleKeepsIds(items, assetId, newValue, playOrder);
  }

  /** Applying the same toggle payload twice is the same as applying it once. */
  lemma ToggleIdempotent(items: seq<Asset>, assetId: AssetId, newValue: int, playOrder: int)
    ensures var once := ToggledItems(items, assetId, newValue, playOrder);
            ToggledItems(once, assetId, newValue, playOrder) == once
  {
    var once := ToggledItems(items, assetId, newValue, playOrder);
    var twice := ToggledItems(once, assetId, newValue, playOrder);
    ToggleKeepsIds(items, assetId, newValue, playOrder);
    forall i | 0 <= i < |items| ensures twice[i] == once[i] {
      FirstMatchFollowsIds(once, items, assetId, i);
    }
  }

  /** Toggling the found item and then toggling it back to its former
      `is_enabled` and `play_order` restores the list exactly. */
  lemma ToggleRoundTrip(items: seq<Asset>, assetId: AssetId, k: nat, newValue: int, playOrder: int)
    requires IsFirstMatch(items, assetId, k)
    ensures var there := ToggledItems(items, assetId, newValue, playOrder);
            ToggledItems(there, assetId, items[k].is_enabled, items[k].play_order) == items
  {
    var there := ToggledItems(items, assetId, newValue, playOrder);
    var back := ToggledItems(there, assetId, items[k].is_enabled, items[k].play_order);
    ToggleKeepsIds(items, assetId, newValue, playOrder);
    forall i | 0 <= i < |items| ensures back[i] == items[i] {
      FirstMatchFollowsIds(there, items, assetId, i);
      FirstMatchFollowsIds(there, items, assetId, k);
    }
  }

  /** `Array.prototype.find` as a linear search: the position of the first
      item carrying `assetId`, or `None` when there is none. */
  method FindAsset(items: seq<Asset>, assetId: AssetId) returns (found: Option<nat>)
    ensures found == FirstIndex(items, assetId)
  {
    var i := 0;
    while i < |items|
      invariant 0 <= i <= |items|
      invariant forall j :: 0 <= j < i ==> items[j].asset_id != assetId
    {
      if items[i].asset_id == assetId {
        return Some(i);
      }
      i := i + 1;
    }
    return None;
  }

  /** The slice state `{items, status, error}`, updated in place by the reducers. */
  class AssetsStore {
    var items: seq<Asset>
    var status: Status
    var error: Option<string>

    /** `initialState`. */
    constructor ()
      ensures items == [] && status == Idle && error == None
    {
      items := [];
      status := Idle;
      error := None;
    }

    /** `addAsset`: push the payload at the end of the list. */
    method AddAsset(asset: Asset)
      modifies this
      ensures items == old(items) + [asset]
      ensures |items| == |old(items)| + 1 && items[..|old(items)|] == old(items)
      ensures status == old(status) && error == old(error)
    {
      items := items + [asset];
    }

    /** `fetchAssets.pending`. */
    method FetchPending()
      modifies this
      ensures status == Loading
      ensures items == old(items) && error == old(error)
    {
      status := Loading;
    }

    /** `fetchAssets.fulfilled`: the payload replaces the list wholesale. The
        error of an earlier rejection is kept. */
    method FetchFulfilled(payload: seq<Asset>)
      modifies this
      ensures items == payload && status == Succeeded
      ensures error == old(error)
    {
      status := Succeeded;
      items := payload;
    }

    /** `fetchAssets.rejected`: the list stays, stale but visible. */
    method FetchRejected(message: Option<string>)
      modifies this
      ensures status == Failed && error == Some(RejectionMessage(message))
      ensures items == old(items)
    {
      status := Failed;
      error := Some(RejectionMessage(message));
    }

    /** `updateAssetOrder.fulfilled`: only the status moves. */
    method ReorderFulfilled()
      modifies this
      ensures status == Succeeded
      ensures items == old(items) && error == old(error)
    {
      status := Succeeded;
    }

    /** `toggleAssetEnabled.fulfilled`: find the first item with the id and
        write the two fields into it. */
    method ToggleFulfilled(assetId: AssetId, newValue: int, playOrder: int)
      modifies this
      ensures items == ToggledItems(old(items), assetId, newValue, playOrder)
      ensures Ids(items) == Ids(old(items))
      ensures status == old(status) && error == old(error)
    {
      ToggleKeepsIds(items, assetId, newValue, playOrder);
      var found := FindAsset(items, assetId);
      if found.Some? {
        var k := found.value;
        items := items[k := items[k].(is_enabled := newValue)];
        items := items[k := items[k].(play_order := playOrder)];
      }
    }
  }

  /** A fetch that is fulfilled twice with the same list leaves the store as
      a single fulfilment does. */
  method FetchFulfilledTwice(store: AssetsStore, payload: seq<Asset>)
    modifies store
    ensures store.items == payload && store.status == Succeeded
    ensures store.error == old(store.error)
  {
    store.FetchFulfilled(payload);
    ghost var once := (store.items, store.status, store.error);
    store.FetchFulfilled(payload);
    assert (store.items, store.status, store.error) == once;
  }

  /** The same toggle payload delivered twice leaves the store as one delivery does. */
  method ToggleFulfilledTwice(store: AssetsStore, assetId: AssetId, newValue: int, playOrder: int)
    modifies store
    ensures store.items == ToggledItems(old(store.items), assetId, newValue, playOrder)
    ensures store.status == old(store.status) && store.error == old(store.error)
  {
    store.ToggleFulfilled(assetId, newValue, playOrder);
    store.ToggleFulfilled(assetId, newValue, playOrder);
    ToggleIdempotent(old(store.items), assetId, newValue, playOrder);
  }
}
