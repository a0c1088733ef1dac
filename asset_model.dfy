/** Value types shared by the dashboard's store, its server views and its rows. */
module AssetModel {

  datatype Option<T> = None | Some(value: T)

  /** Assets are keyed by an opaque text identifier (the table's primary key). */
  type AssetId = string

  /** One asset record as the dashboard holds it. The integer flags mirror the
      `assets` table: `is_enabled`, `is_processing`, `nocache`, `play_order` and
      `skip_asset_check` are integers that default to 0. */
  datatype Asset = Asset(
    asset_id: AssetId,
    name: string,
    uri: string,
    start_date: Option<string>,
    end_date: Option<string>,
    duration: string,
    mimetype: string,
    is_enabled: int,
    is_processing: int,
    nocache: int,
    play_order: int,
    skip_asset_check: int)

  /** The ids of a list of assets, position by position. */
  function Ids(items: seq<Asset>): (ids: seq<AssetId>)
    ensures |ids| == |items|
    ensures forall i :: 0 <= i < |items| ==> ids[i] == items[i].asset_id
  {
    seq(|items|, i requires 0 <= i < |items| => items[i].asset_id)
  }

  predicate NoDuplicates<T(==)>(s: seq<T>) {
    forall i, j :: 0 <= i < j < |s| ==> s[i] != s[j]
  }

  /** Concatenation regroups freely. Dafny knows this law; stating it as a
      lemma only hands the solver the regrouping where a proof needs it. */
  lemma ConcatAssociative<T>(a: seq<T>, b: seq<T>, c: seq<T>)
    ensures a + b + c == a + (b + c)
  {
  }
}
