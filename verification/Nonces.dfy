/** Strictly increasing nonces, one counter for each direction of a session. */
module Nonces {
  import opened Wrappers
  import opened Bytes

  datatype NonceError = Replay(incoming: uint64, lastSeen: uint64)

  /** What the sender hands out after `last`, or nothing when the counter is exhausted. */
  function NextNonce(last: uint64): Option<uint64> {
    if last == U64_MAX then None else Some(last + 1)
  }

  class NonceSender {
    var next: uint64

    constructor ()
      ensures next == 0
    {
      next := 0;
    }

    method Issue() returns (r: Option<uint64>)
      modifies this
      ensures r == NextNonce(old(next))
      ensures next == if r.Some? then r.value else old(next)
    {
      if next == U64_MAX {
        return None;
      }
      next := next + 1;
      return Some(next);
    }
  }

  class NonceReceiver {
    var lastSeen: uint64

    constructor ()
      ensures lastSeen == 0
    {
      lastSeen := 0;
    }

    method Accept(incoming: uint64) returns (r: Result<(), NonceError>)
      modifies this
      ensures r == if incoming > old(lastSeen) then Ok(()) else Err(Replay(incoming, old(lastSeen)))
      ensures lastSeen == if r.Ok? then incoming else old(lastSeen)
    {
      if incoming <= lastSeen {
        return Err(Replay(incoming, lastSeen));
      }
      lastSeen := incoming;
      return Ok(());
    }
  }

  class NonceCounter {
    const send: NonceSender
    const recv: NonceReceiver

    constructor ()
      ensures fresh(send) && fresh(recv)
      ensures send.next == 0 && recv.lastSeen == 0
    {
      send := new NonceSender();
      recv := new NonceReceiver();
    }
  }

  /** How many nonces of a list a receiver accepts before it first refuses one. */
  function AcceptedCount(lastSeen: uint64, nonces: seq<uint64>): (n: nat)
    ensures n <= |nonces|
    decreases |nonces|
  {
    if nonces == [] || nonces[0] <= lastSeen then 0 else 1 + AcceptedCount(nonces[0], nonces[1..])
  }

  predicate Increasing(nonces: seq<uint64>) {
    forall i, j :: 0 <= i < j < |nonces| ==> nonces[i] < nonces[j]
  }

  /** The accepted nonces are the longest strictly increasing prefix above the starting value. */
  lemma {:induction false} AcceptedIsLongestIncreasing(lastSeen: uint64, nonces: seq<uint64>, n: nat)
    requires n <= |nonces|
    ensures n <= AcceptedCount(lastSeen, nonces) <==>
            Increasing(nonces[..n]) && (n > 0 ==> nonces[0] > lastSeen)
    decreases n
  {
    if n > 0 {
      var tail := nonces[1..];
      AcceptedIsLongestIncreasing(nonces[0], tail, n - 1);
      assert nonces[..n] == [nonces[0]] + tail[..n - 1];
      IncreasingCons(nonces[0], tail[..n - 1]);
    }
  }

  lemma IncreasingCons(first: uint64, others: seq<uint64>)
    ensures Increasing([first] + others) <==> Increasing(others) && (others != [] ==> first < others[0])
  {
    var all := [first] + others;
    if Increasing(all) {
      forall i, j | 0 <= i < j < |others| ensures others[i] < others[j] {
        assert all[i + 1] < all[j + 1];
      }
      assert others != [] ==> all[0] < all[1];
    }
  }
}
