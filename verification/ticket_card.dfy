/**
 * The state-dependent logic of src/components/TicketCard.tsx: whether the card shows a busy
 * indicator, and when opening the status drop-down fetches the available transitions. Its
 * colour helpers are the shared classifiers of module `Labels`.
 */
module TicketCard {

  /** `flags[key]`, where a missing key reads as `undefined`, which is falsy. */
  function Flag(flags: map<string, bool>, key: string): (r: bool)
    ensures r <==> key in flags && flags[key]
  {
    if key in flags then flags[key] else false
  }

  /** `loadingTransitions[key] || updatingStatus[key]`. */
  function IsLoading(loadingTransitions: map<string, bool>, updatingStatus: map<string, bool>, key: string): (r: bool)
    ensures r <==> (key in loadingTransitions && loadingTransitions[key]) || (key in updatingStatus && updatingStatus[key])
  {
    Flag(loadingTransitions, key) || Flag(updatingStatus, key)
  }

  /** Flags raised or lowered for other tickets do not change whether this card is busy. */
  lemma IsLoadingLocal(loadingTransitions: map<string, bool>, updatingStatus: map<string, bool>,
                       key: string, other: string, b: bool, c: bool)
    requires other != key
    ensures IsLoading(loadingTransitions[other := b], updatingStatus[other := c], key)
         == IsLoading(loadingTransitions, updatingStatus, key)
  {
    assert Flag(loadingTransitions[other := b], key) == Flag(loadingTransitions, key);
    assert Flag(updatingStatus[other := c], key) == Flag(updatingStatus, key);
  }

  /** The guard of `handleDropdownOpenChange`: transitions are fetched only when the
      drop-down opens and none are cached. */
  function FetchesTransitions<T>(open: bool, transitions: seq<T>): (r: bool)
    ensures r <==> open && transitions == []
  {
    open && |transitions| == 0
  }
}
