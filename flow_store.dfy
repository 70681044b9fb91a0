/**
 * The client flow state (`src/frontend/src/state/flowStore.ts`):
 * whether a CTR code is linked, which code, and the reward tier the user picked.
 */
module FlowStore {
  import opened Wrappers
  import opened RewardTiers

  class Store {
    var isCtrConnected: bool
    var ctrId: string
    var selectedTier: Option<RewardTier>

    /** The state the store is created with and `reset` returns to. */
    predicate IsInitial()
      reads this
    {
      !isCtrConnected && ctrId == "" && selectedTier == None
    }

    constructor ()
      ensures IsInitial()
    {
      isCtrConnected := false;
      ctrId := "";
      selectedTier := None;
    }

    /** `setCtrConnected(connected, ctrId = '')`: an omitted code is stored as the empty string. */
    method SetCtrConnected(connected: bool, id: Option<string>)
      modifies this
      ensures isCtrConnected == connected
      ensures ctrId == id.GetOr("")
      ensures selectedTier == old(selectedTier)
    {
      isCtrConnected := connected;
      ctrId := id.GetOr("");
    }

    /** `setSelectedTier`: only the tier changes. */
    method SetSelectedTier(tier: Option<RewardTier>)
      modifies this
      ensures selectedTier == tier
      ensures isCtrConnected == old(isCtrConnected) && ctrId == old(ctrId)
    {
      selectedTier := tier;
    }

    /** `reset`: back to the initial state from any state, so a second reset changes nothing. */
    method Reset()
      modifies this
      ensures IsInitial()
      ensures old(IsInitial()) ==>
        isCtrConnected == old(isCtrConnected) && ctrId == old(ctrId) && selectedTier == old(selectedTier)
    {
      isCtrConnected := false;
      ctrId := "";
      selectedTier := None;
    }
  }
}
