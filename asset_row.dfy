/** The interactive part of an asset row: the value a click on the enable
    switch asks for, when the switch is disabled, and the busy-flag protocol
    that the toggle and delete handlers follow around their server calls.
    Each handler runs to completion in one method call; whether the server
    call succeeds, and whether the confirmation dialog is confirmed, are
    parameters. What the handlers do to the outside world — state updates of
    the busy flag, dispatched store actions, HTTP requests, dialogs — is
    recorded, in order, in an effect log. */
module AssetRow {
  import opened AssetModel

  /** `!props.isEnabled ? 1 : 0`, with `is_enabled` an integer flag: 0 is
      the only falsy one. */
  function ToggleTarget(isEnabled: int): (newValue: int)
    ensures newValue == 0 || newValue == 1
    ensures newValue == 1 <==> isEnabled == 0
  {
    if isEnabled == 0 then 1 else 0
  }

  /** Clicking twice, with the first answer echoed back, asks for the original value. */
  lemma ToggleTargetTwice(isEnabled: int)
    requires isEnabled == 0 || isEnabled == 1
    ensures ToggleTarget(ToggleTarget(isEnabled)) == isEnabled
  {
  }

  /** `disabled={isDisabled || props.isProcessing === 1}` on the switch. */
  function SwitchDisabled(busy: bool, isProcessing: int): (disabled: bool)
    ensures !busy ==> (disabled <==> isProcessing == 1)
    ensures busy ==> disabled
  {
    busy || isProcessing == 1
  }

  /** The outcome of `fetch(..., {method: 'DELETE'})`: a thrown network
      error, or a response whose `ok` says whether its status was 2xx. */
  datatype DeleteResponse = NetworkError | Response(ok: bool)

  /** Something a handler does that the rest of the application can observe. */
  datatype Effect =
    | SetBusy(busy: bool)                              // setIsDisabled(busy)
    | DispatchToggle(assetId: AssetId, newValue: int)  // dispatch(toggleAssetEnabled(...))
    | DispatchFetch                                    // dispatch(fetchAssets())
    | ConfirmDialog                                    // the "Are you sure?" dialog
    | DeleteRequest(assetId: AssetId)                  // DELETE /api/v2/assets/{id}
    | Notice(success: bool)                            // the "Deleted!" or "Error!" dialog

  predicate IsServerCall(e: Effect) {
    e.DispatchToggle? || e.DeleteRequest?
  }

  /** Read from a state where the busy flag is `busy`, the log issues every
      server call while the row is busy and leaves the flag cleared. */
  predicate Guarded(log: seq<Effect>, busy: bool)
    decreases |log|
  {
    if log == [] then !busy
    else if log[0].SetBusy? then Guarded(log[1..], log[0].busy)
    else (IsServerCall(log[0]) ==> busy) && Guarded(log[1..], busy)
  }

  /** Guarded logs compose: a guarded log followed by another one is guarded. */
  lemma {:induction false} GuardedAppend(a: seq<Effect>, b: seq<Effect>, busy: bool)
    requires Guarded(a, busy) && Guarded(b, false)
    ensures Guarded(a + b, busy)
    decreases |a|
  {
    if a == [] {
      assert a + b == b;
    } else {
      assert (a + b)[1..] == a[1..] + b;
      GuardedAppend(a[1..], b, if a[0].SetBusy? then a[0].busy else busy);
    }
  }

  /** One unfolding of `Guarded` at the head of a log. */
  lemma GuardedCons(e: Effect, rest: seq<Effect>, busy: bool)
    ensures Guarded([e] + rest, busy) <==>
      if e.SetBusy? then Guarded(rest, e.busy) else (IsServerCall(e) ==> busy) && Guarded(rest, busy)
  {
    assert ([e] + rest)[1..] == rest;
  }

  /** What `handleToggle` does for a row showing `isEnabled`, when the
      dispatched toggle is fulfilled (`succeeded`) or rejected: busy first,
      the toggle request next, a refetch only after a fulfilled toggle, and
      the flag cleared last. */
  function ToggleEffects(assetId: AssetId, isEnabled: int, succeeded: bool): (effects: seq<Effect>)
    ensures 3 <= |effects|
    ensures effects[0] == SetBusy(true) && effects[1] == DispatchToggle(assetId, ToggleTarget(isEnabled))
    ensures effects[|effects| - 1] == SetBusy(false)
    ensures DispatchFetch in effects <==> succeeded
    ensures forall i :: 0 <= i < |effects| && effects[i] == DispatchFetch ==> 1 < i
  {
    if succeeded then
      [SetBusy(true), DispatchToggle(assetId, ToggleTarget(isEnabled)), DispatchFetch, SetBusy(false)]
    else
      [SetBusy(true), DispatchToggle(assetId, ToggleTarget(isEnabled)), SetBusy(false)]
  }

  /** The toggle request is issued while the row is busy, and the flag is
      cleared again on both outcomes. */
  lemma ToggleEffectsGuarded(assetId: AssetId, isEnabled: int, succeeded: bool)
    ensures Guarded(ToggleEffects(assetId, isEnabled, succeeded), false)
  {
    var last := [SetBusy(false)];
    GuardedCons(SetBusy(false), [], true);
    assert Guarded(last, true);
    var fetched := if succeeded then [DispatchFetch] + last else last;
    GuardedCons(DispatchFetch, last, true);
    assert Guarded(fetched, true);
    var request := [DispatchToggle(assetId, ToggleTarget(isEnabled))] + fetched;
    GuardedCons(DispatchToggle(assetId, ToggleTarget(isEnabled)), fetched, true);
    GuardedCons(SetBusy(true), request, false);
    assert ToggleEffects(assetId, isEnabled, succeeded) == [SetBusy(true)] + request;
  }

  /** What `handleDelete` does: the dialog always; only on confirmation the
      busy-guarded request; a refetch and a success notice only for an ok
      response, an error notice for a non-ok status and a thrown error. */
  function DeleteEffects(assetId: AssetId, confirmed: bool, response: DeleteResponse): (effects: seq<Effect>)
    ensures 1 <= |effects| && effects[0] == ConfirmDialog
    ensures confirmed ==> effects[|effects| - 1] == SetBusy(false)
  {
    if !confirmed then
      [ConfirmDialog]
    else if response == Response(true) then
      [ConfirmDialog, SetBusy(true), DeleteRequest(assetId), DispatchFetch, Notice(true), SetBusy(false)]
    else
      [ConfirmDialog, SetBusy(true), DeleteRequest(assetId), Notice(false), SetBusy(false)]
  }

  /** Which requests, refetches and notices a delete produces, by outcome. */
  lemma DeleteEffectsOutcomes(assetId: AssetId, confirmed: bool, response: DeleteResponse)
    ensures var effects := DeleteEffects(assetId, confirmed, response);
      && (DeleteRequest(assetId) in effects <==> confirmed)
      && ((forall i :: 0 <= i < |effects| ==> !IsServerCall(effects[i])) <==> !confirmed)
      && (DispatchFetch in effects <==> confirmed && response == Response(true))
      && (Notice(true) in effects <==> confirmed && response == Response(true))
      && (Notice(false) in effects <==> confirmed && response != Response(true))
  {
    var effects := DeleteEffects(assetId, confirmed, response);
    if confirmed {
      assert effects[2] == DeleteRequest(assetId) && IsServerCall(effects[2]);
    }
  }

  /** The delete request is issued while the row is busy, and the flag is
      cleared again on every outcome, a cancelled dialog included. */
  lemma DeleteEffectsGuarded(assetId: AssetId, confirmed: bool, response: DeleteResponse)
    ensures Guarded(DeleteEffects(assetId, confirmed, response), false)
  {
    var effects := DeleteEffects(assetId, confirmed, response);
    GuardedCons(ConfirmDialog, effects[1..], false);
    assert effects == [ConfirmDialog] + effects[1..];
    if confirmed {
      var last := [SetBusy(false)];
      GuardedCons(SetBusy(false), [], true);
      var notices := if response == Response(true) then [DispatchFetch, Notice(true)] else [Notice(false)];
      var tail := notices + last;
      if response == Response(true) {
        GuardedCons(Notice(true), last, true);
        GuardedCons(DispatchFetch, [Notice(true)] + last, true);
        assert tail == [DispatchFetch] + ([Notice(true)] + last);
      } else {
        GuardedCons(Notice(false), last, true);
        assert tail == [Notice(false)] + last;
      }
      assert Guarded(tail, true);
      GuardedCons(DeleteRequest(assetId), tail, true);
      GuardedCons(SetBusy(true), [DeleteRequest(assetId)] + tail, false);
      assert effects[1..] == [SetBusy(true)] + ([DeleteRequest(assetId)] + tail);
    }
  }

  /** One mounted row: its `isDisabled` state and what it has done so far. */
  class AssetRowState {
    const assetId: AssetId
    var isDisabled: bool
    var log: seq<Effect>

    /** Between handler runs the row is not busy, and every server call it
        made was issued while it was. */
    ghost predicate Valid()
      reads this
    {
      !isDisabled && Guarded(log, false)
    }

    constructor (assetId: AssetId)
      ensures Valid() && this.assetId == assetId && log == []
    {
      this.assetId := assetId;
      isDisabled := false;
      log := [];
    }

    /** The switch's `disabled` attribute for the asset's `is_processing` flag. */
    function ToggleDisabled(isProcessing: int): (disabled: bool)
      reads this
      ensures Valid() ==> (disabled <==> isProcessing == 1)
    {
      SwitchDisabled(isDisabled, isProcessing)
    }

    /** `setIsDisabled(busy)`. */
    method SetIsDisabled(busy: bool)
      modifies this
      ensures isDisabled == busy && log == old(log) + [SetBusy(busy)]
    {
      isDisabled := busy;
      log := log + [SetBusy(busy)];
    }

    /** `handleToggle`: mark busy, dispatch the toggle, refetch only when it
        was fulfilled, and clear the flag in the `finally`. */
    method HandleToggle(isEnabled: int, succeeded: bool)
      requires Valid()
      modifies this
      ensures Valid()
      ensures log == old(log) + ToggleEffects(assetId, isEnabled, succeeded)
    {
      var newValue := ToggleTarget(isEnabled);
      SetIsDisabled(true);
      log := log + [DispatchToggle(assetId, newValue)];
      if succeeded {
        log := log + [DispatchFetch];
      }
      SetIsDisabled(false);
      assert log == old(log) + ToggleEffects(assetId, isEnabled, succeeded);
      ToggleEffectsGuarded(assetId, isEnabled, succeeded);
      GuardedAppend(old(log), ToggleEffects(assetId, isEnabled, succeeded), false);
    }

    /** `handleDelete`: after the dialog, and only if it was confirmed, mark
        busy, send the DELETE, refetch and notify on an ok response, notify
        the error otherwise (a non-ok status and a thrown error alike), and
        clear the flag in the `finally`. */
    method HandleDelete(confirmed: bool, response: DeleteResponse)
      requires Valid()
      modifies this
      ensures Valid()
      ensures log == old(log) + DeleteEffects(assetId, confirmed, response)
    {
      log := log + [ConfirmDialog];
      if confirmed {
        SetIsDisabled(true);
        log := log + [DeleteRequest(assetId)];
        if response == Response(true) {
          log := log + [DispatchFetch, Notice(true)];
        } else {
          log := log + [Notice(false)];
        }
        SetIsDisabled(false);
      }
      assert log == old(log) + DeleteEffects(assetId, confirmed, response);
      DeleteEffectsGuarded(assetId, confirmed, response);
      GuardedAppend(old(log), DeleteEffects(assetId, confirmed, response), false);
    }
  }
}
