/**
 * The PLK login session (`src/frontend/src/lib/plkSession.ts`): an eight-digit unique ID
 * kept under one key of the browser's local storage.
 */
module PlkSession {
  import opened Wrappers
  import opened Text

  const SessionKey: string := "plk_session_uid"

  /** `/^\d{8}$/` on a present, non-empty value. */
  predicate IsValidSession(sessionId: Option<string>) {
    match sessionId
    case None => false
    case Some(s) => s != "" && |s| == 8 && AllDigits(s)
  }

  /** The check accepts exactly the present strings of eight ASCII digits. */
  lemma IsValidSessionIff(sessionId: Option<string>)
    ensures IsValidSession(sessionId) <==>
      sessionId.Some? && |sessionId.value| == 8 && forall i :: 0 <= i < 8 ==> '0' <= sessionId.value[i] <= '9'
    ensures !IsValidSession(None) && !IsValidSession(Some(""))
  {
  }

  /** The smallest and largest IDs `generateUniqueId` can produce. */
  const MinId: nat := 10000000
  const MaxId: nat := 99999999

  /**
   * `generateUniqueId`, given the value `random` that `Math.random()` returned:
   * floor(random * (max - min + 1)) + min, printed in decimal.
   */
  function GenerateUniqueId(random: real): (id: string)
    requires 0.0 <= random < 1.0
    ensures AllDigits(id) && MinId <= ParseNat(id) <= MaxId
    ensures IsValidSession(Some(id))
  {
    var offset := (random * (MaxId - MinId + 1) as real).Floor;
    var n: nat := offset + MinId;
    assert Pow10(7) == MinId && Pow10(8) == MaxId + 1;
    NatToStringLength(n, 8);
    ParseNatToString(n);
    NatToString(n)
  }

  /** Both ends of the range are produced: the draw 0 gives the smallest ID, a draw just below 1 the largest. */
  lemma GenerateUniqueIdBounds()
    ensures GenerateUniqueId(0.0) == "10000000"
    ensures GenerateUniqueId(0.99999999999) == "99999999"
  {
    assert (0.99999999999 * 90000000.0).Floor == 89999999;
    assert NatToString(99999999) == "99999999";
    assert NatToString(10000000) == "10000000";
  }

  /**
   * The browser environment the session helpers run in: whether `window` exists, and the
   * local-storage entries.
   */
  class SessionStore {
    const windowDefined: bool
    var localStorage: map<string, string>

    constructor (windowDefined: bool, localStorage: map<string, string>)
      ensures this.windowDefined == windowDefined && this.localStorage == localStorage
    {
      this.windowDefined := windowDefined;
      this.localStorage := localStorage;
    }

    /** What `getSession()` returns in the current state. */
    function Current(): Option<string>
      reads this
    {
      if windowDefined && SessionKey in localStorage then Some(localStorage[SessionKey]) else None
    }

    /** `setSession`: writes the ID under the session key; nothing without a window. */
    method SetSession(uniqueId: string)
      modifies this
      ensures localStorage == if windowDefined then old(localStorage)[SessionKey := uniqueId] else old(localStorage)
      ensures windowDefined ==> Current() == Some(uniqueId)
      ensures !windowDefined ==> Current() == None
    {
      if windowDefined {
        localStorage := localStorage[SessionKey := uniqueId];
      }
    }

    /** `getSession`: the stored ID, or null when there is no window or no entry. */
    method GetSession() returns (r: Option<string>)
      ensures r.Some? <==> windowDefined && SessionKey in localStorage
      ensures r.Some? ==> r.value == localStorage[SessionKey]
    {
      if !windowDefined {
        return None;
      }
      if SessionKey in localStorage {
        r := Some(localStorage[SessionKey]);
      } else {
        r := None;
      }
    }

    /** `clearSession`: removes the session key and no other entry. */
    method ClearSession()
      modifies this
      ensures localStorage == if windowDefined then old(localStorage) - {SessionKey} else old(localStorage)
      ensures Current() == None && !IsValidSession(Current())
    {
      if windowDefined {
        localStorage := localStorage - {SessionKey};
      }
    }

    /** `hasValidSession`: whether the stored ID, if any, is eight digits. */
    method HasValidSession() returns (b: bool)
      ensures b <==> windowDefined && SessionKey in localStorage && |localStorage[SessionKey]| == 8
                     && AllDigits(localStorage[SessionKey])
    {
      var sessionId := GetSession();
      b := IsValidSession(sessionId);
    }
  }

  /** Writing an ID and reading it back yields that ID, and a generated ID is a valid session. */
  method SetThenGet(store: SessionStore, random: real) returns (r: Option<string>, valid: bool)
    requires store.windowDefined && 0.0 <= random < 1.0
    modifies store
    ensures r == Some(GenerateUniqueId(random)) && valid
    ensures forall k :: k != SessionKey ==>
      (k in store.localStorage <==> k in old(store.localStorage)) &&
      (k in store.localStorage ==> store.localStorage[k] == old(store.localStorage)[k])
  {
    store.SetSession(GenerateUniqueId(random));
    r := store.GetSession();
    valid := store.HasValidSession();
  }

  /** After logging out no session is found and none is valid. */
  method ClearThenCheck(store: SessionStore) returns (r: Option<string>, valid: bool)
    modifies store
    ensures r == None && !valid
  {
    store.ClearSession();
    r := store.GetSession();
    valid := store.HasValidSession();
  }
}
