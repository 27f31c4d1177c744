/**
 distributor.go: requests wait in the order of their creation and are handed to peers
 that can take them. Channels, the wake-up loop and sleeping are left away; what peers
 answer during one scan is a parameter.
 */
module Distributor {
  type Peer = nat

  /** A request: its place in the order of creation, and whether its channel and its queue element are set. */
  class DistReq {
    var reqOrder: nat
    var open: bool
    var queued: bool

    constructor ()
      ensures reqOrder == 0 && !open && !queued
    {
      reqOrder, open, queued := 0, false, false;
    }
  }

  /** The answers of the peers while one scan lasts. */
  datatype Answers = Answers(canQueue: Peer -> bool, canSend: (DistReq, Peer) -> bool, wait: (DistReq, Peer) -> nat)

  datatype Next = Nothing | Pair(peer: Peer, req: DistReq, wait: nat)

  ghost predicate Can(ask: Answers, r: DistReq, p: Peer) { ask.canQueue(p) && ask.canSend(r, p) }

  ghost predicate CanAny(ask: Answers, peers: set<Peer>, r: DistReq) { exists p :: p in peers && Can(ask, r, p) }

  /** The request is the first of the queue that the peer can take. */
  ghost predicate FirstFor(ask: Answers, reqs: seq<DistReq>, p: Peer, r: DistReq) {
    exists i :: 0 <= i < |reqs| && reqs[i] == r && Can(ask, r, p) && forall j :: 0 <= j < i ==> !Can(ask, reqs[j], p)
  }

  ghost predicate NoneFor(ask: Answers, reqs: seq<DistReq>, p: Peer) {
    forall j :: 0 <= j < |reqs| ==> !Can(ask, reqs[j], p)
  }

  /** Where the request belongs: at the back, or before the first later one. */
  method Position(reqs: seq<DistReq>, r: DistReq) returns (before: nat)
    requires InOrder(reqs) && forall q :: q in reqs ==> q.reqOrder != r.reqOrder
    ensures before <= |reqs|
    ensures forall j :: 0 <= j < |reqs| ==>
      if j < before then reqs[j].reqOrder < r.reqOrder else r.reqOrder < reqs[j].reqOrder
  {
    if |reqs| == 0 || r.reqOrder > reqs[|reqs| - 1].reqOrder { return |reqs|; }
    before := 0;
    while reqs[before].reqOrder < r.reqOrder
      invariant 0 <= before < |reqs| && forall j :: 0 <= j < before ==> reqs[j].reqOrder < r.reqOrder
      decreases |reqs| - before
    {
      before := before + 1;
    }
  }

  ghost predicate Issued(reqs: seq<DistReq>)
    reads reqs`reqOrder
  {
    forall i :: 0 <= i < |reqs| ==> reqs[i].reqOrder == i + 1
  }

  ghost predicate InOrder(reqs: seq<DistReq>)
    reads reqs`reqOrder
  {
    forall i, j :: 0 <= i < j < |reqs| ==> reqs[i].reqOrder < reqs[j].reqOrder
  }

  lemma InsertInOrder(reqs: seq<DistReq>, i: nat, r: DistReq)
    requires InOrder(reqs) && i <= |reqs|
    requires forall j :: 0 <= j < |reqs| ==>
      if j < i then reqs[j].reqOrder < r.reqOrder else r.reqOrder < reqs[j].reqOrder
    ensures InOrder(reqs[..i] + [r] + reqs[i..]) && forall q :: q in reqs[..i] + [r] + reqs[i..] <==>
      q == r || q in reqs
  {
  }

  lemma RemoveInOrder(reqs: seq<DistReq>, i: nat)
    requires InOrder(reqs) && i < |reqs|
    ensures InOrder(reqs[..i] + reqs[i + 1..]) && forall q :: q in reqs[..i] + reqs[i + 1..] <==>
      q in reqs && q != reqs[i]
  {
  }

  lemma OrdersDiffer(issued: seq<DistReq>, q: DistReq, r: DistReq)
    requires Issued(issued) && q in issued && r in issued && q != r
    ensures q.reqOrder != r.reqOrder
  {
  }

  class RequestDistributor {
    var reqQueue: seq<DistReq>
    var lastReqOrder: nat
    var peers: set<Peer>
    ghost var issued: seq<DistReq>

    /** Orders are given out once; the queue is sorted by them and holds exactly the open requests. */
    ghost predicate Valid()
      reads this, issued, reqQueue
    {
      && |issued| == lastReqOrder && Issued(issued) && InOrder(reqQueue)
      && (forall r :: r in reqQueue ==> r in issued)
      && (forall r :: r in issued ==> (r.queued <==> r in reqQueue) && (r.open <==> r in reqQueue))
    }

    constructor ()
      ensures Valid() && reqQueue == []
    {
      reqQueue, lastReqOrder, peers, issued := [], 0, {}, [];
    }

    /** Give a new request its place in the order of creation. */
    method Number(r: DistReq)
      requires Valid() && (if r.reqOrder == 0 then r !in issued else r in issued) && !r.queued && !r.open
      modifies this`lastReqOrder, this`issued, r`reqOrder
      ensures Valid() && r in issued
        && r.reqOrder == if old(r.reqOrder) == 0 then old(lastReqOrder) + 1 else old(r.reqOrder)
      ensures issued == if old(r.reqOrder) == 0 then old(issued) + [r] else old(issued)
    {
      if r.reqOrder == 0 {
        lastReqOrder := lastReqOrder + 1;
        r.reqOrder := lastReqOrder;
        issued := issued + [r];
      }
    }

    /** queue: a new request goes to the back, one that is sent again to its old place. */
    method Queue(r: DistReq)
      requires Valid() && (if r.reqOrder == 0 then r !in issued else r in issued) && !r.queued && !r.open
      modifies this, r
      ensures Valid() && r.reqOrder == if old(r.reqOrder) == 0 then old(lastReqOrder) + 1 else old(r.reqOrder)
      ensures exists i :: 0 <= i <= |old(reqQueue)| && reqQueue == old(reqQueue)[..i] + [r] + old(reqQueue)[i..]
      ensures issued == (if old(r.reqOrder) == 0 then old(issued) + [r] else old(issued)) && peers == old(peers)
    {
      hide Issued;
      hide InOrder;
      Number(r);
      Place(r);
    }

    method Place(r: DistReq)
      requires Valid() && r in issued && !r.queued && !r.open
      modifies this`reqQueue, r`queued, r`open
      ensures Valid()
      ensures exists i :: 0 <= i <= |old(reqQueue)| && reqQueue == old(reqQueue)[..i] + [r] + old(reqQueue)[i..]
    {
      hide Issued;
      hide InOrder;
      forall q | q in reqQueue ensures q.reqOrder != r.reqOrder { OrdersDiffer(issued, q, r); }
      var before := Position(reqQueue, r);
      InsertInOrder(reqQueue, before, r);
      reqQueue := reqQueue[..before] + [r] + reqQueue[before..];
      r.queued, r.open := true, true;
    }

    /** remove: the request leaves the queue, and its channel and element are unset. */
    method Remove(r: DistReq)
      requires Valid() && r in issued
      modifies this`reqQueue, r
      ensures Valid() && !r.open && !r.queued && r.reqOrder == old(r.reqOrder)
      ensures r !in reqQueue && (r !in old(reqQueue) ==> reqQueue == old(reqQueue))
      ensures forall i :: 0 <= i < |old(reqQueue)| && old(reqQueue)[i] == r ==>
        reqQueue == old(reqQueue)[..i] + old(reqQueue)[i + 1..]
    {
      hide Issued;
      hide InOrder;
      r.open := false;
      if r.queued {
        var i :| 0 <= i < |reqQueue| && reqQueue[i] == r;
        RemoveInOrder(reqQueue, i);
        reqQueue := reqQueue[..i] + reqQueue[i + 1..];
        r.queued := false;
      }
    }

    /** cancel: whether the request had not been sent yet; if so it leaves the queue. */
    method Cancel(r: DistReq) returns (ok: bool)
      requires Valid() && r in issued
      modifies this`reqQueue, r
      ensures Valid() && ok == (r in old(reqQueue)) && r !in reqQueue && !r.open && !r.queued
      ensures !ok ==> reqQueue == old(reqQueue)
      ensures ok ==> exists i ::
        0 <= i < |old(reqQueue)| && old(reqQueue)[i] == r && reqQueue == old(reqQueue)[..i] + old(reqQueue)[i + 1..]
    {
      if !r.open { return false; }
      ghost var i :| 0 <= i < |reqQueue| && reqQueue[i] == r;
      Remove(r);
      ok := true;
    }

    /**
     nextRequest. Every peer is matched with the first queued request that it can take, so a request is
     never overtaken by a later one at a peer; requests at the front that no peer can take are dropped.
     */
    method NextRequest(ask: Answers) returns (next: Next)
      requires Valid()
      modifies this`reqQueue, reqQueue
      ensures Valid() && issued == old(issued)
      ensures next.Pair? ==>
        && next.peer in peers && FirstFor(ask, old(reqQueue), next.peer, next.req)
        && next.wait == ask.wait(next.req, next.peer)
      ensures next.Pair? ==> forall p, r ::
        p in peers && r in old(reqQueue) && FirstFor(ask, old(reqQueue), p, r) ==> next.wait <= ask.wait(r, p)
      ensures next == Nothing ==> forall r :: r in old(reqQueue) ==> !CanAny(ask, peers, r)
      ensures exists k :: Dropped(ask, old(reqQueue), reqQueue, peers, k)
    {
      hide Can;
      hide Scanned;
      hide FirstFor;
      hide Issued;
      hide InOrder;
      ghost var was := reqQueue;
      ScannedNone(ask, peers);
      var checked: set<Peer> := {};
      var ready: set<(Peer, DistReq)> := {};
      var best := Nothing;
      var at: nat := 0;
      ghost var k: nat := 0;
      assert was[..0] == [] && was[0..] == was;
      while at < |reqQueue|
        invariant at <= |reqQueue| && Valid() && issued == old(issued) && peers == old(peers)
        invariant Visited(ask, was, reqQueue, peers, checked, ready, best, at, k)
        decreases |reqQueue| - at
      {
        at, checked, ready, best, k := Visit(ask, at, checked, ready, best, was, k);
      }
      assert was[..|was|] == was;
      assert at + k == |was|;
      ScanDone(ask, was, peers, checked, ready, best);
      assert Dropped(ask, was, reqQueue, peers, k);
      if ready != {} {
        var pair :| pair in ready;
        return Pair(pair.0, pair.1, 0);
      }
      return best;
    }

    /** One request of the scan. */
    method Visit(ask: Answers, at0: nat, checked0: set<Peer>, ready0: set<(Peer, DistReq)>, best0: Next,
                 ghost was: seq<DistReq>, ghost k0: nat)
      returns (at: nat, checked: set<Peer>, ready: set<(Peer, DistReq)>, best: Next, ghost k: nat)
      requires Valid() && at0 < |reqQueue| && Visited(ask, was, reqQueue, peers, checked0, ready0, best0, at0, k0)
      modifies this`reqQueue, reqQueue
      ensures Valid() && issued == old(issued) && at <= |reqQueue| && |reqQueue| - at < old(|reqQueue|) - at0
      ensures Visited(ask, was, reqQueue, peers, checked, ready, best, at, k)
      ensures forall r :: r in reqQueue ==> r in old(reqQueue)
    {
      hide Can;
      hide Scanned;
      hide FirstFor;
      hide Issued;
      hide InOrder;
      var req := reqQueue[at0];
      var canSend;
      canSend, checked, ready, best := Offer(ask, req, peers, checked0, ready0, best0, was[..at0 + k0]);
      VisitNext(ask, was, reqQueue, peers, checked0, ready0, best0, at0, k0, canSend, checked, ready, best);
      at, k := at0, k0;
      hide Visited;
      if !canSend && at == 0 {
        ghost var rest := was[k + 1..];
        assert reqQueue == [req] + rest;
        Remove(req);
        assert reqQueue == rest;
        k := k + 1;
      } else {
        at := at + 1;
      }
    }
  }

  /** In the scan: the first k requests have been dropped, and of what is left the first at have been offered. */
  ghost predicate Visited(ask: Answers, was: seq<DistReq>, now: seq<DistReq>, peers: set<Peer>, checked: set<Peer>,
                          ready: set<(Peer, DistReq)>, best: Next, at: nat, k: nat) {
    && at + k <= |was| && now == was[k..] && Scanned(ask, was[..at + k], peers, checked, ready, best)
    && (forall j :: 0 <= j < k ==> !CanAny(ask, peers, was[j]))
    && (if at > 0 then CanAny(ask, peers, was[k]) else checked == {})
  }

  /** The first k requests were dropped, exactly those at the front that no peer could take. */
  ghost predicate Dropped(ask: Answers, was: seq<DistReq>, now: seq<DistReq>, peers: set<Peer>, k: nat) {
    && k <= |was| && now == was[k..] && (forall j :: 0 <= j < k ==> !CanAny(ask, peers, was[j]))
    && (k < |was| ==> CanAny(ask, peers, was[k]))
  }

  /** After a part of the queue: the checked peers have their first request, the others none. */
  ghost predicate Scanned(ask: Answers, reqs: seq<DistReq>, peers: set<Peer>, checked: set<Peer>,
                          ready: set<(Peer, DistReq)>, best: Next) {
    && checked <= peers && (forall p :: p in peers && p !in checked ==> NoneFor(ask, reqs, p))
    && (forall p :: p in checked ==> exists r :: r in reqs && FirstFor(ask, reqs, p, r))
    && (forall pair :: pair in ready ==>
         pair.0 in checked && FirstFor(ask, reqs, pair.0, pair.1) && ask.wait(pair.1, pair.0) == 0)
    && (forall p, r :: p in checked && r in reqs && FirstFor(ask, reqs, p, r) ==>
          if ask.wait(r, p) == 0 then (p, r) in ready else best.Pair? && best.wait <= ask.wait(r, p))
    && (best.Pair? ==>
         && best.peer in checked && FirstFor(ask, reqs, best.peer, best.req)
         && best.wait == ask.wait(best.req, best.peer) > 0)
  }

  lemma ScannedNone(ask: Answers, peers: set<Peer>)
    ensures Scanned(ask, [], peers, {}, {}, Nothing)
  {
  }

  /** What the scan of the whole queue says about the pairs it found. */
  lemma ScanDone(ask: Answers, reqs: seq<DistReq>, peers: set<Peer>, checked: set<Peer>, ready: set<(Peer, DistReq)>,
                 best: Next)
    requires Scanned(ask, reqs, peers, checked, ready, best)
    ensures forall pair :: pair in ready ==>
      pair.0 in peers && FirstFor(ask, reqs, pair.0, pair.1) && ask.wait(pair.1, pair.0) == 0
    ensures best.Pair? ==>
      best.peer in peers && FirstFor(ask, reqs, best.peer, best.req) && best.wait == ask.wait(best.req, best.peer)
    ensures ready == {} && best.Pair? ==> forall p, r ::
      p in peers && r in reqs && FirstFor(ask, reqs, p, r) ==> best.wait <= ask.wait(r, p)
    ensures ready == {} && best == Nothing ==> forall r :: r in reqs ==> !CanAny(ask, peers, r)
  {
    hide Can;
  }

  /** Whether the queue moves on or loses its front, what has been seen stays accounted for. */
  lemma VisitNext(ask: Answers, was: seq<DistReq>, now: seq<DistReq>, peers: set<Peer>, checked0: set<Peer>,
                  ready0: set<(Peer, DistReq)>, best0: Next, at: nat, k: nat,
                  canSend: bool, checked: set<Peer>, ready: set<(Peer, DistReq)>, best: Next)
    requires Visited(ask, was, now, peers, checked0, ready0, best0, at, k) && at < |now|
    requires Scanned(ask, was[..at + k] + [now[at]], peers, checked, ready, best)
    requires canSend <==> exists p :: p in peers - checked0 && Can(ask, now[at], p)
    requires !canSend ==> checked == checked0
    ensures if !canSend && at == 0 then
        && now == [now[0]] + was[k + 1..]
        && Visited(ask, was, was[k + 1..], peers, checked, ready, best, 0, k + 1)
      else Visited(ask, was, now, peers, checked, ready, best, at + 1, k)
  {
    hide Can;
    hide Scanned;
    assert now[at] == was[at + k] && was[..at + k + 1] == was[..at + k] + [now[at]];
  }

  /** The inner loop of nextRequest: offer one request to the peers that have none yet. */
  method Offer(ask: Answers, req: DistReq, peers: set<Peer>, checked0: set<Peer>, ready0: set<(Peer, DistReq)>,
               best0: Next, ghost reqs: seq<DistReq>)
    returns (canSend: bool, checked: set<Peer>, ready: set<(Peer, DistReq)>, best: Next)
    requires Scanned(ask, reqs, peers, checked0, ready0, best0)
    ensures Scanned(ask, reqs + [req], peers, checked, ready, best) && checked0 <= checked
    ensures canSend <==> exists p :: p in peers - checked0 && Can(ask, req, p)
    ensures !canSend ==> checked == checked0
  {
    canSend, checked, ready, best := false, checked0, ready0, best0;
    var todo := peers;
    while todo != {}
      invariant todo <= peers && checked0 <= checked <= peers
      invariant forall p :: p in todo ==> (p in checked <==> p in checked0)
      invariant forall p :: p in peers - todo ==> (p in checked <==> p in checked0 || Can(ask, req, p))
      invariant canSend <==> exists p :: p in peers - todo - checked0 && Can(ask, req, p)
      invariant forall p :: p in checked - checked0 ==> Can(ask, req, p)
      invariant !canSend ==> checked == checked0
      invariant ScannedSome(ask, reqs, req, peers, checked0, checked, ready, best)
      decreases todo
    {
      var p :| p in todo;
      todo := todo - {p};
      if p !in checked && ask.canQueue(p) && ask.canSend(req, p) {
        OfferOne(ask, reqs, req, peers, checked0, checked, ready, best, p);
        canSend := true;
        var wait := ask.wait(req, p);
        if wait == 0 {
          ready := ready + {(p, req)};
        } else if best == Nothing || wait < best.wait {
          best := Pair(p, req, wait);
        }
        checked := checked + {p};
      }
    }
    OfferDone(ask, reqs, req, peers, checked0, checked, ready, best);
  }

  /** In the middle of the inner loop: as before it, with the new request for the peers checked since. */
  ghost predicate ScannedSome(ask: Answers, reqs: seq<DistReq>, req: DistReq, peers: set<Peer>, checked0: set<Peer>,
                              checked: set<Peer>, ready: set<(Peer, DistReq)>, best: Next) {
    && (forall pair :: pair in ready ==>
         pair.0 in checked && ask.wait(pair.1, pair.0) == 0 && Matches(ask, reqs, req, checked0, pair.0, pair.1))
    && (forall p, r :: p in checked && r in reqs + [req] && Matches(ask, reqs, req, checked0, p, r) ==>
          if ask.wait(r, p) == 0 then (p, r) in ready else best.Pair? && best.wait <= ask.wait(r, p))
    && (best.Pair? ==>
         && best.peer in checked && Matches(ask, reqs, req, checked0, best.peer, best.req)
         && best.wait == ask.wait(best.req, best.peer) > 0)
  }

  ghost predicate Matches(ask: Answers, reqs: seq<DistReq>, req: DistReq, checked0: set<Peer>, p: Peer, r: DistReq) {
    if p in checked0 then FirstFor(ask, reqs, p, r) else r == req
  }

  lemma OfferOne(ask: Answers, reqs: seq<DistReq>, req: DistReq, peers: set<Peer>, checked0: set<Peer>,
                 checked: set<Peer>, ready: set<(Peer, DistReq)>, best: Next, p: Peer)
    requires ScannedSome(ask, reqs, req, peers, checked0, checked, ready, best) && p !in checked && checked0 <= checked
      && ask.canQueue(p) && ask.canSend(req, p)
    ensures Can(ask, req, p) && var wait := ask.wait(req, p);
      ScannedSome(ask, reqs, req, peers, checked0, checked + {p}, if wait == 0 then ready + {(p, req)} else ready,
        if wait > 0 && (best == Nothing || wait < best.wait) then Pair(p, req, wait) else best)
  {
  }

  lemma OfferDone(ask: Answers, reqs: seq<DistReq>, req: DistReq, peers: set<Peer>, checked0: set<Peer>,
                  checked: set<Peer>, ready: set<(Peer, DistReq)>, best: Next)
    requires exists ready0, best0 :: Scanned(ask, reqs, peers, checked0, ready0, best0)
    requires ScannedSome(ask, reqs, req, peers, checked0, checked, ready, best) && checked0 <= checked <= peers
    requires forall p :: p in peers ==> (p in checked <==> p in checked0 || Can(ask, req, p))
    requires forall p :: p in checked - checked0 ==> Can(ask, req, p)
    ensures Scanned(ask, reqs + [req], peers, checked, ready, best)
  {
    forall p, r | p in checked && r in reqs + [req]
      ensures FirstFor(ask, reqs + [req], p, r) <==> Matches(ask, reqs, req, checked0, p, r)
    {
      FirstNext(ask, reqs, req, p, r);
    }
    forall p | p in checked ensures exists r :: r in reqs + [req] && FirstFor(ask, reqs + [req], p, r) {
      if p in checked0 {
        var r :| r in reqs && FirstFor(ask, reqs, p, r);
        assert FirstFor(ask, reqs + [req], p, r);
      } else {
        assert FirstFor(ask, reqs + [req], p, req);
      }
    }
  }

  lemma FirstNext(ask: Answers, reqs: seq<DistReq>, req: DistReq, p: Peer, r: DistReq)
    ensures (exists q :: q in reqs && FirstFor(ask, reqs, p, q)) ==>
      (FirstFor(ask, reqs + [req], p, r) <==> FirstFor(ask, reqs, p, r))
    ensures NoneFor(ask, reqs, p) && Can(ask, req, p) ==> (FirstFor(ask, reqs + [req], p, r) <==> r == req)
  {
    var more := reqs + [req];
    if q :| q in reqs && FirstFor(ask, reqs, p, q) {
      var i :| 0 <= i < |reqs| && reqs[i] == q && Can(ask, q, p) && forall j :: 0 <= j < i ==> !Can(ask, reqs[j], p);
      assert more[i] == q && forall j :: 0 <= j < i ==> more[j] == reqs[j];
      assert FirstFor(ask, more, p, q);
    }
    if NoneFor(ask, reqs, p) && Can(ask, req, p) {
      assert more[|reqs|] == req && forall j :: 0 <= j < |reqs| ==> more[j] == reqs[j];
      assert FirstFor(ask, more, p, req);
    }
  }
}
