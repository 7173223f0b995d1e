/** The reverse search over a management address that both the key-store alias
    resource (`alias()`) and the credential-store resource (`credentialStoreName()`)
    perform: walk the address from its last element down to element 1 and take
    the value of the first element whose key matches. Element 0 is never looked at. */
module Addresses {
  import opened Common

  /** The value of the highest-index element below `hi`, and not below 1, whose key is `key`. */
  function LastValueBelow(address: seq<PathElement>, key: string, hi: nat): Option<string>
    requires hi <= |address|
    decreases hi
  {
    if hi <= 1 then None
    else if address[hi - 1].key == key then Some(address[hi - 1].value)
    else LastValueBelow(address, key, hi - 1)
  }

  /** The value the reverse search finds in the whole address, if any. */
  function LastValue(address: seq<PathElement>, key: string): Option<string>
  {
    LastValueBelow(address, key, |address|)
  }

  /** `i` is the highest index at or above 1 whose element carries `key`. */
  ghost predicate IsLastMatch(address: seq<PathElement>, key: string, i: int)
  {
    && 1 <= i < |address|
    && address[i].key == key
    && forall j :: i < j < |address| ==> address[j].key != key
  }

  /** The search below `hi` finds nothing exactly when no element in [1, hi) carries
      the key, and otherwise finds the value of the highest such element. */
  lemma {:induction false} LastValueBelowMeaning(address: seq<PathElement>, key: string, hi: nat)
    requires hi <= |address|
    ensures LastValueBelow(address, key, hi).None? <==> forall j :: 1 <= j < hi ==> address[j].key != key
    ensures LastValueBelow(address, key, hi).Some? ==>
              exists i :: 1 <= i < hi && address[i].key == key
                          && LastValueBelow(address, key, hi).value == address[i].value
                          && forall j :: i < j < hi ==> address[j].key != key
    decreases hi
  {
    if hi > 1 && address[hi - 1].key != key {
      LastValueBelowMeaning(address, key, hi - 1);
    }
  }

  /** The whole-address search agrees with `IsLastMatch`, in both directions. */
  lemma LastValueMeaning(address: seq<PathElement>, key: string)
    ensures LastValue(address, key).None? <==> forall j :: 1 <= j < |address| ==> address[j].key != key
    ensures forall i :: IsLastMatch(address, key, i) ==> LastValue(address, key) == Some(address[i].value)
  {
    LastValueBelowMeaning(address, key, |address|);
    forall i | IsLastMatch(address, key, i)
      ensures LastValue(address, key) == Some(address[i].value)
    {
      var v := LastValueBelow(address, key, |address|);
      assert v.Some?;
      var k :| 1 <= k < |address| && address[k].key == key && v.value == address[k].value
               && forall j :: k < j < |address| ==> address[j].key != key;
      assert k == i;
    }
  }

  /** Element 0 never influences the search: replacing it changes nothing. */
  lemma {:induction false} LastValueBelowIgnoresRoot(address: seq<PathElement>, key: string, hi: nat, root: PathElement)
    requires 0 < |address| && hi <= |address|
    ensures LastValueBelow(address[0 := root], key, hi) == LastValueBelow(address, key, hi)
    decreases hi
  {
    if hi > 1 {
      LastValueBelowIgnoresRoot(address, key, hi - 1, root);
    }
  }

  lemma LastValueIgnoresRoot(address: seq<PathElement>, key: string, root: PathElement)
    requires 0 < |address|
    ensures LastValue(address[0 := root], key) == LastValue(address, key)
  {
    LastValueBelowIgnoresRoot(address, key, |address|, root);
  }

  /** The reverse index loop with `break`, as written in `alias()` and
      `credentialStoreName()`: fails with a missing-key error when no element
      from index 1 upwards carries `key`. */
  method FindLastValue(address: seq<PathElement>, key: string) returns (r: Result<string, Error>)
    ensures r.Err? <==> forall j :: 1 <= j < |address| ==> address[j].key != key
    ensures r.Err? ==> r.error == AddressMissingKey(key)
    ensures r.Ok? ==> exists i :: IsLastMatch(address, key, i) && r.value == address[i].value
    ensures r.Ok? <==> LastValue(address, key).Some?
    ensures r.Ok? ==> r.value == LastValue(address, key).value
  {
    var name: Option<string> := None;
    var i := |address| - 1;
    while i > 0
      invariant -1 <= i < |address|
      invariant name.None?
      invariant forall j :: i < j < |address| ==> address[j].key != key
      decreases i
    {
      if address[i].key == key {
        name := Some(address[i].value);
        break;
      }
      i := i - 1;
    }
    LastValueMeaning(address, key);
    if name.None? {
      r := Err(AddressMissingKey(key));
    } else {
      assert IsLastMatch(address, key, i);
      r := Ok(name.value);
    }
  }
}
