/** The pool of connected descriptors of the select-based echo server. */
module ClientPool {
  const FD_SETSIZE: nat := 1024

  /** The connected clients, given the slot array. */
  function Clients(slots: seq<int>): set<int> {
    set j | 0 <= j < |slots| && slots[j] > 0 :: slots[j]
  }

  /** The clients in slots from i on that are ready. */
  function ReadyFrom(slots: seq<int>, ready: set<int>, i: nat): set<int>
    decreases |slots| - i
  {
    if i >= |slots| then {}
    else (if slots[i] > 0 && slots[i] in ready then {slots[i]} else {}) + ReadyFrom(slots, ready, i + 1)
  }

  lemma {:induction false} ReadyMembers(slots: seq<int>, ready: set<int>, i: nat)
    ensures forall c :: c in ReadyFrom(slots, ready, i) <==>
        c in ready && c > 0 && exists j :: i <= j < |slots| && slots[j] == c
    decreases |slots| - i
  {
    if i < |slots| {
      ReadyMembers(slots, ready, i + 1);
    }
  }

  /** A slot is empty (-1) or holds a positive descriptor that no other slot holds. */
  ghost predicate SlotsOk(slots: seq<int>) {
    && (forall j :: 0 <= j < |slots| ==> slots[j] == -1 || slots[j] > 0)
    && forall j, k :: 0 <= j < k < |slots| && slots[j] > 0 ==> slots[j] != slots[k]
  }

  lemma ReadyStep(slots: seq<int>, ready: set<int>, i: nat)
    requires SlotsOk(slots) && i < |slots|
    ensures slots[i] > 0 && slots[i] in ready ==>
              && slots[i] !in ReadyFrom(slots, ready, i + 1)
              && slots[i] in ReadyFrom(slots, ready, i)
              && ReadyFrom(slots, ready, i) - {slots[i]} == ReadyFrom(slots, ready, i + 1)
    ensures !(slots[i] > 0 && slots[i] in ready) ==> ReadyFrom(slots, ready, i) == ReadyFrom(slots, ready, i + 1)
  {
    ReadyMembers(slots, ready, i + 1);
  }

  lemma ClientsAfter(slots: seq<int>, i: nat, fd: int)
    requires SlotsOk(slots) && i < |slots|
    ensures slots[i] == -1 && fd > 0 && fd !in Clients(slots) ==>
              SlotsOk(slots[i := fd]) && Clients(slots[i := fd]) == Clients(slots) + {fd}
    ensures slots[i] > 0 ==> SlotsOk(slots[i := -1]) && Clients(slots[i := -1]) == Clients(slots) - {slots[i]}
  {
    var filled, emptied := slots[i := fd], slots[i := -1];
    if slots[i] == -1 && fd > 0 && fd !in Clients(slots) {
      assert filled[i] == fd;
      forall c | c in Clients(slots) ensures c in Clients(filled) {
        var j :| 0 <= j < |slots| && slots[j] > 0 && slots[j] == c;
        assert filled[j] == c;
      }
      forall j | 0 <= j < |slots| && slots[j] > 0 ensures slots[j] != fd {
        assert slots[j] in Clients(slots);
      }
    }
    if slots[i] > 0 {
      forall c | c in Clients(slots) && c != slots[i] ensures c in Clients(emptied) {
        var j :| 0 <= j < |slots| && slots[j] > 0 && slots[j] == c;
        assert emptied[j] == c;
      }
    }
  }

  predicate HeldIn(slots: seq<int>, j: int, fd: int) { 0 <= j < |slots| && slots[j] == fd }

  /** Descriptors in the order of their slots. */
  ghost predicate InSlotOrder(slots: seq<int>, served: seq<int>) {
    forall a, b, j, k :: 0 <= a < b < |served| && HeldIn(slots, j, served[a]) && HeldIn(slots, k, served[b]) ==> j < k
  }

  /** They come from slots before i. */
  ghost predicate FromSlotsBefore(slots: seq<int>, served: seq<int>, i: nat) {
    && InSlotOrder(slots, served)
    && forall a, j :: 0 <= a < |served| && HeldIn(slots, j, served[a]) ==> j < i
  }

  lemma NextInOrder(slots: seq<int>, served: seq<int>, i: nat)
    requires SlotsOk(slots) && FromSlotsBefore(slots, served, i) && i < |slots| && slots[i] > 0
    ensures FromSlotsBefore(slots, served + [slots[i]], i + 1)
  {
    forall j | HeldIn(slots, j, slots[i]) ensures j == i {
    }
  }

  /** The read set is the listening descriptor and the clients; the high-water marks bound them. */
  ghost predicate PoolOk(listenfd: int, maxfd: int, readSet: set<int>, maxi: int, slots: seq<int>) {
    && -1 <= maxi < |slots| && SlotsOk(slots)
    && (forall j :: maxi < j < |slots| ==> slots[j] == -1)
    && listenfd !in Clients(slots)
    && readSet == {listenfd} + Clients(slots)
    && forall fd :: fd in readSet ==> fd <= maxfd
  }

  ghost predicate HasEmptySlot(slots: seq<int>) { exists j :: 0 <= j < |slots| && slots[j] == -1 }

  /** The lowest empty slot has taken the descriptor. */
  ghost predicate TookLowest(before: seq<int>, after: seq<int>, fd: int) {
    exists j :: 0 <= j < |before| && before[j] == -1 && (forall k :: 0 <= k < j ==>
        before[k] != -1) && after == before[j := fd]
  }

  class Pool {
    const listenfd: int
    var maxfd: int
    var readSet: set<int>
    var readySet: set<int>
    var nready: int
    var maxi: int
    const clientfd: array<int>

    ghost predicate Valid()
      reads this, clientfd
    {
      clientfd.Length == FD_SETSIZE && PoolOk(listenfd, maxfd, readSet, maxi, clientfd[..])
    }

    /** init_pool. */
    constructor (listenfd: int)
      ensures Valid() && this.listenfd == listenfd && fresh(clientfd)
      ensures readSet == {listenfd} && maxfd == listenfd && maxi == -1
    {
      this.listenfd := listenfd;
      this.maxi := -1;
      this.clientfd := new int[FD_SETSIZE](_ => -1);
      this.maxfd := listenfd;
      this.readSet := {listenfd};
      this.readySet := {};
      this.nready := 0;
    }

    /** add_client: the lowest empty slot takes the descriptor; with no empty slot the server exits
        with an error, here reported by `ok`. */
    method AddClient(connfd: int) returns (ok: bool)
      requires Valid() && connfd > 0 && connfd !in readSet
      modifies this`maxfd, this`readSet, this`nready, this`maxi, clientfd
      ensures Valid() && nready == old(nready) - 1
      ensures ok <==> HasEmptySlot(old(clientfd[..]))
      ensures ok ==> TookLowest(old(clientfd[..]), clientfd[..], connfd)
      ensures ok ==> Clients(clientfd[..]) == old(Clients(clientfd[..])) + {connfd}
      ensures !ok ==> clientfd[..] == old(clientfd[..]) && readSet == old(readSet)
      ensures maxfd >= old(maxfd) && maxi >= old(maxi)
    {
      nready := nready - 1;
      var i := 0;
      while i < FD_SETSIZE
        invariant 0 <= i <= FD_SETSIZE && forall k :: 0 <= k < i ==> clientfd[k] != -1
        invariant Valid() && nready == old(nready) - 1 && clientfd[..] == old(clientfd[..])
        invariant readSet == old(readSet) && maxfd == old(maxfd) && maxi == old(maxi)
      {
        if clientfd[i] < 0 {
          ghost var slots := clientfd[..];
          assert slots[i] == -1;
          ClientsAfter(slots, i, connfd);
          clientfd[i] := connfd;
          assert clientfd[..] == slots[i := connfd];
          assert TookLowest(slots, clientfd[..], connfd);
          readSet := readSet + {connfd};
          if connfd > maxfd {
            maxfd := connfd;
          }
          if i > maxi {
            maxi := i;
          }
          return true;
        }
        i := i + 1;
      }
      ok := false;
    }

    /** Close, FD_CLR and emptying the slot. */
    method Close(i: nat)
      requires Valid() && i < FD_SETSIZE && clientfd[i] > 0
      modifies this`readSet, clientfd
      ensures Valid() && clientfd[..] == old(clientfd[..])[i := -1]
      ensures Clients(clientfd[..]) == old(Clients(clientfd[..])) - {old(clientfd[i])}
    {
      ghost var slots := clientfd[..];
      ClientsAfter(slots, i, 0);
      assert clientfd[i] in Clients(slots);
      readSet := readSet - {clientfd[i]};
      clientfd[i] := -1;
      assert clientfd[..] == slots[i := -1];
    }

    /** The loop body of check_clients: serves the client in slot i if it is ready. */
    method ServeSlot(i: nat, eof: set<int>) returns (hit: bool)
      requires Valid() && i < FD_SETSIZE
      modifies this`readSet, this`nready, clientfd
      ensures Valid()
      ensures var fd := old(clientfd[i]);
        && hit == (fd > 0 && fd in readySet)
        && nready == old(nready) - (if hit then 1 else 0)
        && Clients(clientfd[..]) == old(Clients(clientfd[..])) - (if hit && fd in eof then {fd} else {})
      ensures forall j :: 0 <= j < FD_SETSIZE && j != i ==> clientfd[j] == old(clientfd[j])
    {
      var connfd := clientfd[i];
      hit := connfd > 0 && connfd in readySet;
      if hit {
        nready := nready - 1;
        if connfd in eof {
          Close(i);
        }
      }
    }

    /** The slots from i on are as they were, and Tally holds of the clients before and after. */
    ghost predicate Account(i: nat, slots: seq<int>, all: set<int>, served: seq<int>, before: set<int>, eof: set<int>)
      reads this, clientfd
    {
      && Valid() && |slots| == FD_SETSIZE && SlotsOk(slots) && maxi < FD_SETSIZE
      && (forall j :: maxi < j < FD_SETSIZE ==> slots[j] == -1)
      && (forall j :: i <= j < FD_SETSIZE ==> clientfd[j] == slots[j])
      && Tally(all, ReadyFrom(slots, readySet, i), nready, served, before, Clients(clientfd[..]), eof)
    }

    /** One turn of the loop of check_clients. */
    method ServeNext(i: nat, served: seq<int>, ghost slots: seq<int>, ghost all: set<int>, ghost before: set<int>,
        eof: set<int>)
      returns (served': seq<int>)
      requires i <= maxi && Account(i, slots, all, served, before, eof) && FromSlotsBefore(slots, served, i)
      modifies this`readSet, this`nready, clientfd
      ensures Account(i + 1, slots, all, served', before, eof) && FromSlotsBefore(slots, served', i + 1)
    {
      var connfd := clientfd[i];
      if connfd > 0 {
        NextInOrder(slots, served, i);
      }
      ServeTurn(slots, readySet, i, all, nready, served, before, Clients(clientfd[..]), eof);
      var hit := ServeSlot(i, eof);
      served' := if hit then served + [connfd] else served;
    }

    /** check_clients: each ready client is served once, in slot order; those whose connection has
        ended (`eof`) are closed and leave the pool. */
    method CheckClients(eof: set<int>) returns (served: seq<int>)
      requires Valid()
      requires nready == |ReadyFrom(clientfd[..], readySet, 0)|
      modifies this`readSet, this`nready, clientfd
      ensures Valid() && nready == 0
      ensures multiset(served) == multiset(old(ReadyFrom(clientfd[..], readySet, 0)))
      ensures InSlotOrder(old(clientfd[..]), served)
      ensures Clients(clientfd[..]) == old(Clients(clientfd[..])) - old(ReadyFrom(clientfd[..], readySet, 0)) * eof
    {
      ghost var slots := clientfd[..];
      ghost var all, before := ReadyFrom(slots, readySet, 0), Clients(slots);
      served := [];
      assert all - all == {};
      var i := 0;
      while i <= maxi && nready > 0
        invariant 0 <= i <= maxi + 1 && Account(i, slots, all, served, before, eof)
        invariant FromSlotsBefore(slots, served, i)
      {
        served := ServeNext(i, served, slots, all, before, eof);
        i := i + 1;
      }
      NoneLeft(slots, readySet, i, maxi, nready);
      assert all - {} == all;
    }

    /** One round of the main loop: select reports the descriptors `ready`; a pending connection is
        accepted as `connfd`; every ready client is served exactly once. */
    method Round(ready: set<int>, connfd: int, eof: set<int>) returns (ok: bool, served: seq<int>)
      requires Valid() && ready <= readSet
      requires listenfd in ready ==> connfd > 0 && connfd !in readSet
      modifies this, clientfd
      ensures Valid()
      ensures ok <==> listenfd !in ready || HasEmptySlot(old(clientfd[..]))
      ensures ok ==> nready == 0 && multiset(served) == multiset(ready - {listenfd})
      ensures ok ==> Clients(clientfd[..]) ==
                       old(Clients(clientfd[..])) + (if listenfd in ready
                           then {connfd} else {}) - (ready - {listenfd}) * eof
    {
      served := [];
      ok := Accept(ready, connfd);
      if ok {
        ghost var clients := Clients(clientfd[..]);
        ReadyIsClients(listenfd, clientfd[..], readSet, ready);
        served := CheckClients(eof);
        assert Clients(clientfd[..]) == clients - (ready - {listenfd}) * eof;
      }
    }

    /** The first half of a round: select, and the pending connection if there is one. */
    method Accept(ready: set<int>, connfd: int) returns (ok: bool)
      requires Valid() && ready <= readSet
      requires listenfd in ready ==> connfd > 0 && connfd !in readSet
      modifies this, clientfd
      ensures Valid()
      ensures ok <==> listenfd !in ready || HasEmptySlot(old(clientfd[..]))
      ensures ok ==> Clients(clientfd[..]) == old(Clients(clientfd[..])) + if listenfd in ready then {connfd} else {}
      ensures ok ==> readySet == ready <= readSet && nready == |ready| - if listenfd in ready then 1 else 0
    {
      ghost var clients := Clients(clientfd[..]);
      readySet, nready := ready, |ready|;
      if listenfd in readySet {
        ok := AddClient(connfd);
        if !ok {
          return;
        }
        assert Clients(clientfd[..]) == clients + {connfd};
      } else {
        ok := true;
        assert Clients(clientfd[..]) == clients + {};
      }
    }
  }

  /** Among descriptors reported ready, the clients are all but the listening one. */
  lemma ReadyIsClients(listenfd: int, slots: seq<int>, members: set<int>, ready: set<int>)
    requires ready <= members && members == {listenfd} + Clients(slots) && listenfd !in Clients(slots)
    ensures ReadyFrom(slots, ready, 0) == ready - {listenfd}
    ensures |ready - {listenfd}| == |ready| - if listenfd in ready then 1 else 0
  {
    ReadyMembers(slots, ready, 0);
    forall fd | fd in ready - {listenfd} ensures fd in ReadyFrom(slots, ready, 0) {
      assert fd in Clients(slots);
    }
    forall fd | fd in ReadyFrom(slots, ready, 0) ensures fd in ready - {listenfd} {
      assert fd in Clients(slots);
    }
    if listenfd !in ready {
      assert ready - {listenfd} == ready;
    }
  }

  /** How far check_clients has come: of all the ready clients, those still ahead are counted by
      nready, and the others have been served once each and removed if their connection ended. */
  ghost predicate Tally(all: set<int>, ahead: set<int>, nready: int, served: seq<int>, before: set<int>,
            now: set<int>, eof: set<int>) {
    && ahead <= all
    && nready == |ahead|
    && multiset(served) == multiset(all - ahead)
    && now == before - (all - ahead) * eof
  }

  lemma TallyStep(all: set<int>, ahead: set<int>, nready: int, served: seq<int>, before: set<int>, now: set<int>,
            eof: set<int>, fd: int)
    requires Tally(all, ahead, nready, served, before, now, eof) && fd in ahead
    ensures Tally(all, ahead - {fd}, nready - 1, served + [fd], before, if fd in eof then now - {fd} else now, eof)
  {
    assert all - (ahead - {fd}) == (all - ahead) + {fd};
    if fd in eof {
      assert ((all - ahead) + {fd}) * eof == (all - ahead) * eof + {fd};
    } else {
      assert ((all - ahead) + {fd}) * eof == (all - ahead) * eof;
    }
  }

  /** One turn of the loop of check_clients. */
  lemma ServeTurn(slots: seq<int>, ready: set<int>, i: nat, all: set<int>, nready: int, served: seq<int>,
                  before: set<int>, now: set<int>, eof: set<int>)
    requires SlotsOk(slots) && i < |slots|
    requires Tally(all, ReadyFrom(slots, ready, i), nready, served, before, now, eof)
    ensures var fd, ahead := slots[i], ReadyFrom(slots, ready, i + 1);
      if fd > 0 && fd in ready
      then Tally(all, ahead, nready - 1, served + [fd], before, if fd in eof then now - {fd} else now, eof)
      else Tally(all, ahead, nready, served, before, now, eof)
  {
    ReadyStep(slots, ready, i);
    if slots[i] > 0 && slots[i] in ready {
      TallyStep(all, ReadyFrom(slots, ready, i), nready, served, before, now, eof, slots[i]);
    }
  }

  /** When the loop of check_clients ends, on either condition, no ready client is left. */
  lemma NoneLeft(slots: seq<int>, ready: set<int>, i: nat, maxi: int, nready: int)
    requires nready == |ReadyFrom(slots, ready, i)|
    requires maxi >= -1 && (i > maxi || nready <= 0)
    requires forall j :: maxi < j < |slots| ==> slots[j] == -1
    ensures ReadyFrom(slots, ready, i) == {} && nready == 0
  {
    if i > maxi {
      NoneBeyond(slots, ready, i);
    }
  }

  lemma {:induction false} NoneBeyond(slots: seq<int>, ready: set<int>, i: nat)
    requires forall j :: i <= j < |slots| ==> slots[j] == -1
    ensures ReadyFrom(slots, ready, i) == {}
    decreases |slots| - i
  {
    if i < |slots| {
      NoneBeyond(slots, ready, i + 1);
    }
  }
}
