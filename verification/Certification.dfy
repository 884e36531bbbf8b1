/** Certification of requests: each node keeps one request of its own under way, collects confirmations from
    the peers that store it, and issues the next one when enough have confirmed. */
module Certification {
  import opened Types
  import opened SeqNums

  /** What a node keeps about one sequence number. `duplicated` is the stage after certification. */
  datatype Cert = Cert(req: Option<Request>, queue: seq<NodeId>, votes: set<NodeId>, duplicated: bool)

  type Certs = map<int, Cert>

  const NEW_CERT := Cert(None, [], {}, false)

  /** The certification part of one server: its id, how many sequence numbers it assigned, its certificates
      and the channel of sequence numbers still to be broadcast. */
  datatype Certifier = Certifier(id: int, issued: nat, certs: Certs, seqCh: seq<int>)

  // ---- Local steps ----

  function CertOf(certs: Certs, s: int): Cert {
    if s in certs then certs[s] else NEW_CERT
  }

  /** A new request under the next sequence number. */
  function Issued(c: Certifier, req: Request): Certifier {
    var s := SeqOf(c.id, c.issued + 1);
    c.(issued := c.issued + 1,
       certs := c.certs[s := CertOf(c.certs, s).(req := Some(req))],
       seqCh := c.seqCh + [s])
  }

  function Stored(c: Certifier, s: int, req: Request): Certifier {
    c.(certs := c.certs[s := CertOf(c.certs, s).(req := Some(req))])
  }

  function Elements(queue: seq<NodeId>): set<NodeId> {
    set v | v in queue
  }

  /** Counts the queued confirmations; nothing happens while the request itself is unknown. */
  function Counted(cert: Cert, f: nat): Cert {
    if cert.req.None? then cert
    else
      var votes := cert.votes + Elements(cert.queue);
      cert.(queue := [], votes := votes, duplicated := |votes| >= f)
  }

  /** A confirmation arrives: it is queued, and counted unless the request is certified already. */
  function Heard(c: Certifier, s: int, voter: NodeId, f: nat): Certifier {
    var cert := CertOf(c.certs, s);
    var pushed := cert.(queue := cert.queue + [voter]);
    c.(certs := c.certs[s := if cert.duplicated then pushed else Counted(pushed, f)])
  }

  /** Whether that confirmation certifies the request. */
  predicate Certifies(c: Certifier, s: int, voter: NodeId, f: nat) {
    !CertOf(c.certs, s).duplicated && Heard(c, s, voter, f).certs[s].duplicated
  }

  /** Handling a confirmation; certification is followed at once by the next request. */
  function Confirmed(c: Certifier, s: int, voter: NodeId, f: nat, next: Request): Certifier {
    if Certifies(c, s, voter, f) then Issued(Heard(c, s, voter, f), next) else Heard(c, s, voter, f)
  }

  /** The unit that a confirmation to node `self` adds to its pool. */
  function CertifiedUnit(c: Certifier, self: NodeId, s: int, voter: NodeId, f: nat): Option<Unit> {
    var cert := CertOf(c.certs, s);
    if Certifies(c, s, voter, f) && cert.req.Some? then Some(Unit(s, self, cert.req.value.txNum)) else None
  }

  /** A peer's confirmation of a sequence number. */
  datatype Confirm = Confirm(seqNo: int, voter: NodeId)

  /** Confirmations handled one after the other; `nexts` are the requests made on certification. */
  function ConfirmedAll(c: Certifier, batch: seq<Confirm>, nexts: seq<Request>, f: nat): Certifier
    requires |nexts| == |batch|
  {
    if batch == [] then c
    else
      var n := |batch| - 1;
      Confirmed(ConfirmedAll(c, batch[..n], nexts[..n], f), batch[n].seqNo, batch[n].voter, f, nexts[n])
  }

  // ---- The system ----

  datatype Msg =
    | Dup(seqNo: int, origin: NodeId, to: NodeId, req: Request)
    | Conf(seqNo: int, origin: NodeId, voter: NodeId)

  /** `net` holds every message ever sent. Any of them may be handled at any time, again or never, so lost,
      repeated, reordered and relayed messages are all covered. */
  datatype System = System(nodes: seq<Certifier>, net: set<Msg>)

  datatype Step =
    | Start(p: NodeId, req: Request)
    | Broadcast(p: NodeId, targets: set<NodeId>)
    | Forward(m: Msg, targets: set<NodeId>)
    | Store(m: Msg)
    | Count(m: Msg, next: Request)

  predicate Targets(n: nat, origin: NodeId, targets: set<NodeId>) {
    forall t :: t in targets ==> t < n && t != origin
  }

  predicate Enabled(s: System, step: Step) {
    match step
    case Start(p, _) => p < |s.nodes| && s.nodes[p].issued == 0
    case Broadcast(p, targets) =>
      && p < |s.nodes| && s.nodes[p].seqCh != [] && Targets(|s.nodes|, p, targets)
      && CertOf(s.nodes[p].certs, s.nodes[p].seqCh[0]).req.Some?
    case Forward(m, targets) =>
      && m in s.net && m.Dup? && m.to < |s.nodes| && Targets(|s.nodes|, m.origin, targets)
      && CertOf(s.nodes[m.to].certs, m.seqNo).req.Some?
    case Store(m) => m in s.net && m.Dup? && m.to < |s.nodes|
    case Count(m, _) => m in s.net && m.Conf? && m.origin < |s.nodes|
  }

  function Next(s: System, step: Step, f: nat): System
    requires Enabled(s, step)
  {
    match step
    case Start(p, req) => s.(nodes := s.nodes[p := Issued(s.nodes[p], req)])
    case Broadcast(p, targets) =>
      var c := s.nodes[p];
      var req := CertOf(c.certs, c.seqCh[0]).req.value;
      s.(nodes := s.nodes[p := c.(seqCh := c.seqCh[1..])],
         net := s.net + set t | t in targets :: Dup(c.seqCh[0], p, t, req))
    case Forward(m, targets) => s.(net := s.net + set t | t in targets :: Dup(m.seqNo, m.origin, t, m.req))
    case Store(m) =>
      s.(nodes := s.nodes[m.to := Stored(s.nodes[m.to], m.seqNo, m.req)],
         net := s.net + {Conf(m.seqNo, m.origin, m.to)})
    case Count(m, next) =>
      s.(nodes := s.nodes[m.origin := Confirmed(s.nodes[m.origin], m.seqNo, m.voter, f, next)])
  }

  /** The request a step certifies, if any. */
  function Outcome(s: System, step: Step, f: nat): Option<Unit>
    requires Enabled(s, step)
  {
    if step.Count? then CertifiedUnit(s.nodes[step.m.origin], step.m.origin, step.m.seqNo, step.m.voter, f) else None
  }

  function Boot(ids: seq<int>): System {
    System(seq(|ids|, p requires 0 <= p < |ids| => Certifier(ids[p], 0, map[], [])), {})
  }

  // ---- The invariant ----

  /** Sequence numbers this node has assigned. */
  predicate Own(c: Certifier, s: int) {
    s % SEQ_STEP == c.id && 1 <= s / SEQ_STEP <= c.issued
  }

  ghost predicate Holds(c: Certifier, s: int, req: Request) {
    s in c.certs && c.certs[s].req == Some(req)
  }

  /** Node o assigned s to this request. */
  ghost predicate IssuedBy(nodes: seq<Certifier>, o: NodeId, s: int, req: Request) {
    o < |nodes| && Own(nodes[o], s) && Holds(nodes[o], s, req)
  }

  /** Another node that stores the request of s. */
  ghost predicate VoterOk(nodes: seq<Certifier>, p: NodeId, s: int, v: NodeId)
    requires p < |nodes| && s in nodes[p].certs
  {
    nodes[p].certs[s].req.Some? && v < |nodes| && v != p && Holds(nodes[v], s, nodes[p].certs[s].req.value)
  }

  ghost predicate IdsOk(nodes: seq<Certifier>) {
    && (forall p :: 0 <= p < |nodes| ==> IdRange(nodes[p].id))
    && forall p, q :: 0 <= p < q < |nodes| ==> nodes[p].id != nodes[q].id
  }

  /** Of a node's own requests, exactly the last one is not certified yet. */
  ghost predicate OwnOk(c: Certifier) {
    && (forall s :: Own(c, s) ==> s in c.certs && c.certs[s].req.Some?
                                  && (c.certs[s].duplicated <==> s / SEQ_STEP < c.issued))
    && forall i :: 0 <= i < |c.seqCh| ==> Own(c, c.seqCh[i])
  }

  ghost predicate CertOk(nodes: seq<Certifier>, f: nat, p: NodeId, s: int)
    requires p < |nodes| && s in nodes[p].certs
  {
    var cert := nodes[p].certs[s];
    && (cert.req.Some? ==> exists o: NodeId :: IssuedBy(nodes, o, s, cert.req.value))
    && (!Own(nodes[p], s) ==> cert.queue == [] && cert.votes == {} && !cert.duplicated)
    && (forall v :: v in cert.queue || v in cert.votes ==> VoterOk(nodes, p, s, v))
    && (cert.duplicated ==> |cert.votes| >= f)
    && (f >= 1 && Own(nodes[p], s) ==> CountedUp(cert, f))
  }

  /** Certified exactly with f votes, and until then every confirmation is counted as it comes. */
  ghost predicate CountedUp(cert: Cert, f: nat) {
    && (cert.duplicated <==> |cert.votes| >= f)
    && (!cert.duplicated ==> cert.queue == [])
  }

  ghost predicate MsgOk(nodes: seq<Certifier>, m: Msg) {
    && m.origin < |nodes|
    && match m
       case Dup(s, o, to, req) => IssuedBy(nodes, o, s, req) && to < |nodes| && to != o
       case Conf(s, o, v) => Own(nodes[o], s) && s in nodes[o].certs && VoterOk(nodes, o, s, v)
  }

  /** Everything but the closed loop of each node. */
  ghost predicate Consistent(s: System, f: nat) {
    && IdsOk(s.nodes)
    && (forall p, x :: 0 <= p < |s.nodes| && x in s.nodes[p].certs ==> CertOk(s.nodes, f, p, x))
    && forall m :: m in s.net ==> MsgOk(s.nodes, m)
  }

  ghost predicate Inv(s: System, f: nat) {
    && Consistent(s, f)
    && forall p :: 0 <= p < |s.nodes| ==> OwnOk(s.nodes[p])
  }

  /** All assigned requests are certified: the moment between a certification and the next request. */
  ghost predicate AllDone(c: Certifier) {
    && (forall s :: Own(c, s) ==> s in c.certs && c.certs[s].req.Some? && c.certs[s].duplicated)
    && forall i :: 0 <= i < |c.seqCh| ==> Own(c, c.seqCh[i])
  }

  /** A sequence number names one request on every node. */
  lemma OneRequestPerNumber(s: System, f: nat, p: NodeId, q: NodeId, x: int, a: Request, b: Request)
    requires Consistent(s, f) && p < |s.nodes| && q < |s.nodes| && Holds(s.nodes[p], x, a) && Holds(s.nodes[q], x, b)
    ensures a == b
  {
    assert CertOk(s.nodes, f, p, x) && CertOk(s.nodes, f, q, x);
    var o: NodeId :| IssuedBy(s.nodes, o, x, a);
    var o': NodeId :| IssuedBy(s.nodes, o', x, b);
    assert s.nodes[o].id == s.nodes[o'].id;
  }

  /** Numbers assigned by one node are not another node's own. */
  lemma OwnByOne(nodes: seq<Certifier>, p: NodeId, q: NodeId, s: int)
    requires IdsOk(nodes) && p < |nodes| && q < |nodes| && Own(nodes[p], s) && Own(nodes[q], s)
    ensures p == q
  {
  }

  /** What later states keep: assigned numbers, stored requests, votes and stages. */
  ghost predicate Grown(a: seq<Certifier>, b: seq<Certifier>) {
    && |a| == |b|
    && forall p :: 0 <= p < |a| ==> NodeGrown(a[p], b[p])
  }

  ghost predicate NodeGrown(c: Certifier, d: Certifier) {
    && c.id == d.id && c.issued <= d.issued
    && forall s :: s in c.certs ==> s in d.certs && CertGrown(c.certs[s], d.certs[s])
  }

  ghost predicate CertGrown(a: Cert, b: Cert) {
    (a.req.Some? ==> b.req == a.req) && a.votes <= b.votes && (a.duplicated ==> b.duplicated)
  }

  lemma GrownKeepsMsg(a: seq<Certifier>, b: seq<Certifier>, m: Msg)
    requires Grown(a, b) && MsgOk(a, m)
    ensures MsgOk(b, m)
  {
    assert NodeGrown(a[m.origin], b[m.origin]);
    if m.Conf? {
      assert NodeGrown(a[m.voter], b[m.voter]);
    }
  }

  /** An untouched certificate stays in order while other nodes grow. */
  lemma GrownKeepsCert(a: seq<Certifier>, b: seq<Certifier>, f: nat, p: NodeId, s: int)
    requires Grown(a, b) && p < |a| && s in a[p].certs && CertOk(a, f, p, s)
    requires s in b[p].certs && b[p].certs[s] == a[p].certs[s]
    requires Own(b[p], s) ==> Own(a[p], s)
    ensures CertOk(b, f, p, s)
  {
    var cert := a[p].certs[s];
    if cert.req.Some? {
      var o: NodeId :| IssuedBy(a, o, s, cert.req.value);
      assert NodeGrown(a[o], b[o]);
      assert IssuedBy(b, o, s, cert.req.value);
    }
    forall v | v in cert.queue || v in cert.votes
      ensures VoterOk(b, p, s, v)
    {
      assert VoterOk(a, p, s, v);
      assert NodeGrown(a[v], b[v]);
    }
  }

  // ---- Every step keeps the invariant ----

  predicate GoodIds(ids: seq<int>) {
    && (forall p :: 0 <= p < |ids| ==> IdRange(ids[p]))
    && forall p, q :: 0 <= p < q < |ids| ==> ids[p] != ids[q]
  }

  lemma BootInv(ids: seq<int>, f: nat)
    requires GoodIds(ids)
    ensures Inv(Boot(ids), f)
  {
  }

  lemma OwnAfterIssue(c: Certifier, req: Request, s: int)
    requires IdRange(c.id)
    ensures Own(Issued(c, req), s) <==> Own(c, s) || s == SeqOf(c.id, c.issued + 1)
    ensures SeqOf(c.id, c.issued + 1) / SEQ_STEP == c.issued + 1 && !Own(c, SeqOf(c.id, c.issued + 1))
  {
    SeqNumbersAreUnique(c.id, c.issued + 1, c.id, 0);
  }

  /** Before it is assigned, a number has an empty certificate at its owner. */
  lemma NewNumberIsUnused(s: System, f: nat, p: NodeId)
    requires Consistent(s, f) && p < |s.nodes|
    ensures var x := SeqOf(s.nodes[p].id, s.nodes[p].issued + 1);
            CertOf(s.nodes[p].certs, x) == NEW_CERT && !Own(s.nodes[p], x)
  {
    var c := s.nodes[p];
    var x := SeqOf(c.id, c.issued + 1);
    OwnAfterIssue(c, Request([], 0), x);
    SeqNumbersAreUnique(c.id, c.issued + 1, c.id, 0);
    forall o: NodeId, req
      ensures !IssuedBy(s.nodes, o, x, req)
    {
      assert o < |s.nodes| && s.nodes[o].id == c.id ==> o == p;
    }
    assert x in c.certs ==> CertOk(s.nodes, f, p, x);
  }

  lemma IssueGrows(s: System, f: nat, p: NodeId, req: Request)
    requires Consistent(s, f) && p < |s.nodes|
    ensures Grown(s.nodes, s.nodes[p := Issued(s.nodes[p], req)])
  {
    NewNumberIsUnused(s, f, p);
  }

  lemma IssuedCertOk(s: System, f: nat, p: NodeId, req: Request)
    requires Consistent(s, f) && p < |s.nodes|
    ensures CertOk(s.nodes[p := Issued(s.nodes[p], req)], f, p, SeqOf(s.nodes[p].id, s.nodes[p].issued + 1))
  {
    var x := SeqOf(s.nodes[p].id, s.nodes[p].issued + 1);
    NewNumberIsUnused(s, f, p);
    OwnAfterIssue(s.nodes[p], req, x);
    assert IssuedBy(s.nodes[p := Issued(s.nodes[p], req)], p, x, req);
  }

  lemma IssueKeepsConsistent(s: System, f: nat, p: NodeId, req: Request)
    requires Consistent(s, f) && p < |s.nodes|
    ensures Consistent(s.(nodes := s.nodes[p := Issued(s.nodes[p], req)]), f)
  {
    hide CertOk, MsgOk, Own;
    var nodes' := s.nodes[p := Issued(s.nodes[p], req)];
    IssueGrows(s, f, p, req);
    IssuedCertOk(s, f, p, req);
    forall q, x | 0 <= q < |nodes'| && x in nodes'[q].certs
      ensures CertOk(nodes', f, q, x)
    {
      OwnAfterIssue(s.nodes[p], req, x);
      if q != p || x != SeqOf(s.nodes[p].id, s.nodes[p].issued + 1) {
        GrownKeepsCert(s.nodes, nodes', f, q, x);
      }
    }
    forall m | m in s.net
      ensures MsgOk(nodes', m)
    {
      GrownKeepsMsg(s.nodes, nodes', m);
    }
  }

  lemma IssueClosesLoop(c: Certifier, req: Request)
    requires IdRange(c.id) && AllDone(c) && CertOf(c.certs, SeqOf(c.id, c.issued + 1)) == NEW_CERT
    ensures OwnOk(Issued(c, req))
  {
    forall s | Own(Issued(c, req), s)
      ensures s in Issued(c, req).certs && Issued(c, req).certs[s].req.Some?
      ensures Issued(c, req).certs[s].duplicated <==> s / SEQ_STEP < c.issued + 1
    {
      OwnAfterIssue(c, req, s);
    }
    forall i | 0 <= i < |Issued(c, req).seqCh|
      ensures Own(Issued(c, req), Issued(c, req).seqCh[i])
    {
      OwnAfterIssue(c, req, Issued(c, req).seqCh[i]);
    }
  }

  lemma IssueKeepsInv(s: System, f: nat, p: NodeId, req: Request)
    requires Consistent(s, f) && p < |s.nodes| && AllDone(s.nodes[p])
    requires forall q :: 0 <= q < |s.nodes| && q != p ==> OwnOk(s.nodes[q])
    ensures Inv(s.(nodes := s.nodes[p := Issued(s.nodes[p], req)]), f)
  {
    hide Consistent, OwnOk, AllDone, Issued;
    IssueKeepsConsistent(s, f, p, req);
    NewNumberIsUnused(s, f, p);
    ConsistentIds(s, f);
    IssueClosesLoop(s.nodes[p], req);
  }

  lemma ConsistentIds(s: System, f: nat)
    requires Consistent(s, f)
    ensures IdsOk(s.nodes)
  {
  }

  /** Replacing one certificate, and changing nothing else, keeps everything consistent. */
  lemma ReplaceKeepsConsistent(s: System, p: NodeId, x: int, cert: Cert, f: nat)
    requires Consistent(s, f) && p < |s.nodes|
    requires CertGrown(CertOf(s.nodes[p].certs, x), cert)
    requires CertOk(s.nodes[p := s.nodes[p].(certs := s.nodes[p].certs[x := cert])], f, p, x)
    ensures Grown(s.nodes, s.nodes[p := s.nodes[p].(certs := s.nodes[p].certs[x := cert])])
    ensures Consistent(s.(nodes := s.nodes[p := s.nodes[p].(certs := s.nodes[p].certs[x := cert])]), f)
  {
    hide CertOk, MsgOk;
    var nodes' := s.nodes[p := s.nodes[p].(certs := s.nodes[p].certs[x := cert])];
    assert Grown(s.nodes, nodes');
    forall q, y | 0 <= q < |nodes'| && y in nodes'[q].certs
      ensures CertOk(nodes', f, q, y)
    {
      if q != p || y != x {
        GrownKeepsCert(s.nodes, nodes', f, q, y);
      }
    }
    forall n | n in s.net
      ensures MsgOk(nodes', n)
    {
      GrownKeepsMsg(s.nodes, nodes', n);
    }
  }

  /** Counting a confirmation at its origin. */
  lemma HeardKeepsConsistent(s: System, f: nat, m: Msg)
    requires Consistent(s, f) && m in s.net && m.Conf?
    ensures m.origin < |s.nodes| && m.seqNo in s.nodes[m.origin].certs
    ensures Consistent(s.(nodes := s.nodes[m.origin := Heard(s.nodes[m.origin], m.seqNo, m.voter, f)]), f)
  {
    hide CertOk, Consistent, VoterOk;
    ConfOk(s, f, m);
    ConsistentCert(s, f, m.origin, m.seqNo);
    HeardKeepsCert(s.nodes, f, m.origin, m.seqNo, m.voter);
    ReplaceKeepsConsistent(s, m.origin, m.seqNo, Heard(s.nodes[m.origin], m.seqNo, m.voter, f).certs[m.seqNo], f);
  }

  lemma ConsistentCert(s: System, f: nat, p: NodeId, x: int)
    requires Consistent(s, f) && p < |s.nodes| && x in s.nodes[p].certs
    ensures CertOk(s.nodes, f, p, x)
  {
  }

  lemma HeardKeepsCert(nodes: seq<Certifier>, f: nat, p: NodeId, x: int, v: NodeId)
    requires p < |nodes| && Own(nodes[p], x) && x in nodes[p].certs && VoterOk(nodes, p, x, v) && CertOk(nodes, f, p, x)
    ensures x in Heard(nodes[p], x, v, f).certs
    ensures CertOk(nodes[p := Heard(nodes[p], x, v, f)], f, p, x)
  {
    var nodes' := nodes[p := Heard(nodes[p], x, v, f)];
    var cert, cert' := nodes[p].certs[x], nodes'[p].certs[x];
    var o: NodeId :| IssuedBy(nodes, o, x, cert.req.value);
    assert NodeGrown(nodes[o], nodes'[o]);
    assert IssuedBy(nodes', o, x, cert'.req.value);
    forall w | w in cert'.queue || w in cert'.votes
      ensures VoterOk(nodes', p, x, w)
    {
      assert VoterOk(nodes, p, x, w);
    }
  }

  lemma CountKeepsInv(s: System, m: Msg, next: Request, f: nat)
    requires Inv(s, f) && Enabled(s, Count(m, next))
    ensures Inv(Next(s, Count(m, next), f), f)
  {
    hide Consistent, CertOk;
    var p, x := m.origin, m.seqNo;
    var c := s.nodes[p];
    HeardKeepsConsistent(s, f, m);
    ConfOk(s, f, m);
    var c' := Heard(c, x, m.voter, f);
    var mid := s.(nodes := s.nodes[p := c']);
    assert forall y :: Own(c', y) <==> Own(c, y);
    if Certifies(c, x, m.voter, f) {
      assert AllDone(c');
      IssueKeepsInv(mid, f, p, next);
      assert mid.nodes[p := Issued(c', next)] == s.nodes[p := Issued(c', next)];
    } else {
      assert OwnOk(c');
    }
  }

  lemma ConfOk(s: System, f: nat, m: Msg)
    requires Consistent(s, f) && m in s.net && m.Conf?
    ensures m.origin < |s.nodes| && Own(s.nodes[m.origin], m.seqNo) && m.seqNo in s.nodes[m.origin].certs
    ensures VoterOk(s.nodes, m.origin, m.seqNo, m.voter)
  {
    assert MsgOk(s.nodes, m);
  }

  /** Storing the request of a message: the certificate it gives, and that it changes no request. */
  lemma StoredCert(s: System, m: Msg, f: nat)
    requires Consistent(s, f) && Enabled(s, Store(m))
    ensures var c := CertOf(s.nodes[m.to].certs, m.seqNo);
            && (c.req.Some? ==> c.req == Some(m.req)) && !Own(s.nodes[m.to], m.seqNo)
    ensures CertOk(s.nodes[m.to := Stored(s.nodes[m.to], m.seqNo, m.req)], f, m.to, m.seqNo)
  {
    var q, x := m.to, m.seqNo;
    var c := CertOf(s.nodes[q].certs, x);
    assert MsgOk(s.nodes, m);
    assert !Own(s.nodes[q], x) by {
      if Own(s.nodes[q], x) {
        OwnByOne(s.nodes, q, m.origin, x);
      }
    }
    if c.req.Some? {
      OneRequestPerNumber(s, f, q, m.origin, x, c.req.value, m.req);
    }
    assert x in s.nodes[q].certs ==> CertOk(s.nodes, f, q, x);
    assert IssuedBy(s.nodes[q := Stored(s.nodes[q], x, m.req)], m.origin, x, m.req);
  }

  lemma StoreKeepsInv(s: System, m: Msg, f: nat)
    requires Inv(s, f) && Enabled(s, Store(m))
    ensures Inv(Next(s, Store(m), f), f)
  {
    hide CertOk;
    var q, x := m.to, m.seqNo;
    var s' := Next(s, Store(m), f);
    StoredCert(s, m, f);
    ReplaceKeepsConsistent(s, q, x, CertOf(s.nodes[q].certs, x).(req := Some(m.req)), f);
    assert MsgOk(s.nodes, m);
    var reply := Conf(x, m.origin, q);
    assert MsgOk(s'.nodes, reply);
    assert forall y :: Own(s'.nodes[q], y) <==> Own(s.nodes[q], y);
    assert OwnOk(s.nodes[q]);
    assert OwnOk(s'.nodes[q]);
  }

  lemma SendKeepsInv(s: System, step: Step, f: nat)
    requires Inv(s, f) && Enabled(s, step) && (step.Broadcast? || step.Forward?)
    ensures Inv(Next(s, step, f), f)
  {
    hide CertOk;
    var s' := Next(s, step, f);
    assert Grown(s.nodes, s'.nodes);
    forall p, y | 0 <= p < |s'.nodes| && y in s'.nodes[p].certs
      ensures CertOk(s'.nodes, f, p, y)
    {
      assert CertOk(s.nodes, f, p, y);
      GrownKeepsCert(s.nodes, s'.nodes, f, p, y);
    }
    forall n | n in s'.net
      ensures MsgOk(s'.nodes, n)
    {
      if n in s.net {
        GrownKeepsMsg(s.nodes, s'.nodes, n);
      } else if step.Forward? {
        assert MsgOk(s.nodes, step.m);
      } else {
        assert OwnOk(s.nodes[step.p]);
      }
    }
    if step.Broadcast? {
      assert OwnOk(s.nodes[step.p]);
      assert forall y :: Own(s'.nodes[step.p], y) <==> Own(s.nodes[step.p], y);
    }
  }

  lemma StepKeepsInv(s: System, step: Step, f: nat)
    requires Inv(s, f) && Enabled(s, step)
    ensures Inv(Next(s, step, f), f)
  {
    hide Inv;
    match step
    case Start(p, req) => StartKeepsInv(s, p, req, f);
    case Store(m) => StoreKeepsInv(s, m, f);
    case Count(m, next) => CountKeepsInv(s, m, next, f);
    case _ => SendKeepsInv(s, step, f);
  }

  lemma StartKeepsInv(s: System, p: NodeId, req: Request, f: nat)
    requires Inv(s, f) && Enabled(s, Start(p, req))
    ensures Inv(Next(s, Start(p, req), f), f)
  {
    assert OwnOk(s.nodes[p]);
    IssueKeepsInv(s, f, p, req);
  }

  // ---- Runs ----

  ghost predicate Legal(s: System, steps: seq<Step>, f: nat)
    decreases |steps|, 0
  {
    steps == [] || (Legal(s, steps[..|steps| - 1], f) && Enabled(After(s, steps[..|steps| - 1], f), steps[|steps| - 1]))
  }

  ghost function After(s: System, steps: seq<Step>, f: nat): System
    requires Legal(s, steps, f)
    decreases |steps|, 1
  {
    if steps == [] then s else Next(After(s, steps[..|steps| - 1], f), steps[|steps| - 1], f)
  }

  lemma {:induction false} RunKeepsInv(ids: seq<int>, steps: seq<Step>, f: nat)
    requires GoodIds(ids) && Legal(Boot(ids), steps, f)
    ensures Inv(After(Boot(ids), steps, f), f) && |After(Boot(ids), steps, f).nodes| == |ids|
  {
    hide Inv;
    if steps == [] {
      BootInv(ids, f);
    } else {
      RunKeepsInv(ids, steps[..|steps| - 1], f);
      StepKeepsInv(After(Boot(ids), steps[..|steps| - 1], f), steps[|steps| - 1], f);
    }
  }

  // ---- What confirmations add to the pool ----

  predicate Done(c: Certifier, x: int) {
    CertOf(c.certs, x).duplicated
  }

  /** A confirmation certifies at most its own request, takes no certification back, and adds the unit of the
      request it certifies. */
  lemma ConfirmedGains(c: Certifier, self: NodeId, s: int, voter: NodeId, f: nat, next: Request)
    ensures var c', gain := Confirmed(c, s, voter, f, next), CertifiedUnit(c, self, s, voter, f);
            && (forall x :: Done(c', x) <==> Done(c, x) || (gain.Some? && x == s))
            && (gain.Some? <==> !Done(c, s) && Done(c', s))
            && (gain.Some? ==> CertOf(c.certs, s).req.Some? && gain.value == Unit(s, self, CertOf(c.certs, s).req.value.txNum))
  {
  }

  /** What a confirmation does to its certificate: it waits in the queue while the request is unknown and once it is
      certified; otherwise it is counted with all that were waiting. */
  lemma ConfirmedCounts(c: Certifier, s: int, voter: NodeId, f: nat, next: Request)
    requires s != SeqOf(c.id, c.issued + 1)
    ensures var was, now := CertOf(c.certs, s), CertOf(Confirmed(c, s, voter, f, next).certs, s);
            && now.req == was.req
            && (was.duplicated || was.req.None? ==>
                  now.queue == was.queue + [voter] && now.votes == was.votes && now.duplicated == was.duplicated)
            && (!was.duplicated && was.req.Some? ==>
                  && now.queue == [] && (forall v :: v in now.votes <==> v in was.votes || v in was.queue || v == voter)
                  && (now.duplicated <==> |now.votes| >= f))
    ensures forall x :: x != s && x != SeqOf(c.id, c.issued + 1)
              ==> CertOf(Confirmed(c, s, voter, f, next).certs, x) == CertOf(c.certs, x)
  {
  }

  /** Confirmation `i` of the batch certified request `x`, which had `txNum` transactions. */
  ghost predicate CertifiedAt(c: Certifier, batch: seq<Confirm>, nexts: seq<Request>, f: nat, i: nat, x: int, txNum: int)
    requires |nexts| == |batch|
  {
    && i < |batch| && batch[i].seqNo == x
    && var before := ConfirmedAll(c, batch[..i], nexts[..i], f);
       && !Done(before, x) && Done(Confirmed(before, x, batch[i].voter, f, nexts[i]), x)
       && CertOf(before.certs, x).req.Some? && CertOf(before.certs, x).req.value.txNum == txNum
  }

  ghost predicate Names(gained: seq<Unit>, x: int) {
    exists u :: u in gained && u.seqNo == x
  }

  /** The units name exactly the numbers done in `after` and not in `before`, once each. */
  ghost predicate NamesNew(gained: seq<Unit>, before: iset<int>, after: iset<int>) {
    && (forall i, j :: 0 <= i < j < |gained| ==> gained[i].seqNo != gained[j].seqNo)
    && before <= after
    && forall x :: Names(gained, x) <==> x in after && x !in before
  }

  ghost function DoneNumbers(c: Certifier): iset<int> {
    iset x | Done(c, x)
  }

  /** What a batch adds to the pool of node `self`: one unit for each number that it certifies. */
  ghost predicate GainedBy(c: Certifier, batch: seq<Confirm>, nexts: seq<Request>, f: nat, self: NodeId, gained: seq<Unit>)
    requires |nexts| == |batch|
  {
    && NamesNew(gained, DoneNumbers(c), DoneNumbers(ConfirmedAll(c, batch, nexts, f)))
    && forall u :: u in gained ==> u.origin == self && exists i: nat :: CertifiedAt(c, batch, nexts, f, i, u.seqNo, u.txNum)
  }

  lemma NothingGained(c: Certifier, f: nat, self: NodeId)
    ensures GainedBy(c, [], [], f, self, [])
  {
  }

  lemma OneMoreName(gained: seq<Unit>, u: Unit, before: iset<int>, after: iset<int>)
    requires NamesNew(gained, before, after) && u.seqNo !in after
    ensures NamesNew(gained + [u], before, after + iset{u.seqNo})
  {
    var more := gained + [u];
    forall i | 0 <= i < |gained|
      ensures gained[i].seqNo != u.seqNo
    {
      assert gained[i] in gained;
      assert Names(gained, gained[i].seqNo);
    }
    forall x ensures Names(more, x) <==> Names(gained, x) || x == u.seqNo {
      assert u in more;
      if g :| g in gained && g.seqNo == x {
        assert g in more;
      }
    }
  }

  lemma CertifiedEarlier(c: Certifier, batch: seq<Confirm>, nexts: seq<Request>, init: seq<Confirm>, inits: seq<Request>,
                         f: nat, x: int, txNum: int)
    requires |nexts| == |batch| && |inits| == |init| && init <= batch && inits <= nexts
    requires exists i: nat :: CertifiedAt(c, init, inits, f, i, x, txNum)
    ensures exists i: nat :: CertifiedAt(c, batch, nexts, f, i, x, txNum)
  {
    var i: nat :| CertifiedAt(c, init, inits, f, i, x, txNum);
    assert init[..i] == batch[..i] && inits[..i] == nexts[..i];
    assert CertifiedAt(c, batch, nexts, f, i, x, txNum);
  }

  lemma GainOne(c: Certifier, batch: seq<Confirm>, nexts: seq<Request>, f: nat, self: NodeId, gained: seq<Unit>)
    requires |nexts| == |batch| > 0
    requires GainedBy(c, batch[..|batch| - 1], nexts[..|batch| - 1], f, self, gained)
    ensures var n := |batch| - 1;
            var gain := CertifiedUnit(ConfirmedAll(c, batch[..n], nexts[..n], f), self, batch[n].seqNo, batch[n].voter, f);
            GainedBy(c, batch, nexts, f, self, if gain.Some? then gained + [gain.value] else gained)
  {
    var n := |batch| - 1;
    var before, after := ConfirmedAll(c, batch[..n], nexts[..n], f), ConfirmedAll(c, batch, nexts, f);
    assert after == Confirmed(before, batch[n].seqNo, batch[n].voter, f, nexts[n]);
    ConfirmedGains(before, self, batch[n].seqNo, batch[n].voter, f, nexts[n]);
    var gain := CertifiedUnit(before, self, batch[n].seqNo, batch[n].voter, f);
    forall u | u in gained
      ensures exists i: nat :: CertifiedAt(c, batch, nexts, f, i, u.seqNo, u.txNum)
    {
      CertifiedEarlier(c, batch, nexts, batch[..n], nexts[..n], f, u.seqNo, u.txNum);
    }
    if gain.Some? {
      assert CertifiedAt(c, batch, nexts, f, n, gain.value.seqNo, gain.value.txNum);
      OneMoreName(gained, gain.value, DoneNumbers(c), DoneNumbers(before));
      assert DoneNumbers(after) == DoneNumbers(before) + iset{gain.value.seqNo};
      hide NamesNew, Confirmed, CertifiedUnit, ConfirmedAll, CertifiedAt;
      assert forall u :: u in gained + [gain.value] <==> u in gained || u == gain.value;
    } else {
      assert DoneNumbers(after) == DoneNumbers(before);
    }
  }

  // ---- What is put up for broadcast ----

  /** The first n numbers of a node. */
  function Numbers(id: int, n: nat): seq<int> {
    if n == 0 then [] else Numbers(id, n - 1) + [SeqOf(id, n)]
  }

  lemma {:induction false} NumbersAre(id: int, n: nat)
    requires IdRange(id)
    ensures |Numbers(id, n)| == n && NoRepeats(Numbers(id, n))
    ensures forall i :: 0 <= i < n ==> Numbers(id, n)[i] == id + (i + 1) * 10_000_000_000
  {
    if n > 0 {
      NumbersAre(id, n - 1);
    }
  }

  /** The number a step takes from p's channel for broadcast. */
  function TakenNow(s: System, step: Step, p: NodeId): seq<int>
    requires Enabled(s, step)
  {
    if step.Broadcast? && step.p == p then [s.nodes[p].seqCh[0]] else []
  }

  /** The numbers taken from p's channel for broadcast, in order. */
  ghost function Taken(s: System, steps: seq<Step>, f: nat, p: NodeId): seq<int>
    requires Legal(s, steps, f)
    decreases |steps|
  {
    if steps == [] then []
    else
      var before := steps[..|steps| - 1];
      Taken(s, before, f, p) + TakenNow(After(s, before, f), steps[|steps| - 1], p)
  }

  lemma StepPutsUp(s: System, step: Step, f: nat, p: NodeId, taken: seq<int>)
    requires Enabled(s, step) && p < |s.nodes|
    requires taken + s.nodes[p].seqCh == Numbers(s.nodes[p].id, s.nodes[p].issued)
    ensures |Next(s, step, f).nodes| == |s.nodes|
    ensures var c, c' := s.nodes[p], Next(s, step, f).nodes[p];
            c'.id == c.id && taken + TakenNow(s, step, p) + c'.seqCh == Numbers(c'.id, c'.issued)
  {
    var c, c', now := s.nodes[p], Next(s, step, f).nodes[p], TakenNow(s, step, p);
    assert taken + [] == taken;
    if step.Broadcast? && step.p == p {
      assert c.seqCh == [c.seqCh[0]] + c'.seqCh;
      assert taken + now + c'.seqCh == taken + (now + c'.seqCh);
    } else if c'.issued == c.issued + 1 {
      assert c'.seqCh == c.seqCh + [SeqOf(c.id, c.issued + 1)];
      assert taken + c'.seqCh == (taken + c.seqCh) + [SeqOf(c.id, c.issued + 1)];
    }
  }

  /** In every run, the numbers already taken from a node's channel for broadcast followed by those still in it are
      exactly the numbers it has assigned, in order and once each. */
  lemma {:induction false} RunPutsUp(ids: seq<int>, steps: seq<Step>, f: nat, p: NodeId)
    requires GoodIds(ids) && Legal(Boot(ids), steps, f) && p < |ids|
    ensures var s, taken := After(Boot(ids), steps, f), Taken(Boot(ids), steps, f, p);
            && |s.nodes| == |ids| && s.nodes[p].id == ids[p]
            && taken + s.nodes[p].seqCh == Numbers(ids[p], s.nodes[p].issued)
            && NoRepeats(taken + s.nodes[p].seqCh) && |taken + s.nodes[p].seqCh| == s.nodes[p].issued
  {
    hide Next, Enabled, TakenNow;
    if steps != [] {
      var before := steps[..|steps| - 1];
      RunPutsUp(ids, before, f, p);
      StepPutsUp(After(Boot(ids), before, f), steps[|steps| - 1], f, p, Taken(Boot(ids), before, f, p));
    }
    NumbersAre(ids[p], After(Boot(ids), steps, f).nodes[p].issued);
  }

  /** So an own number, and in particular one that is not certified, waits in the channel or was taken for
      broadcast, and not both. */
  lemma EachNumberIsPutUp(ids: seq<int>, steps: seq<Step>, f: nat, p: NodeId, x: int)
    requires GoodIds(ids) && Legal(Boot(ids), steps, f) && p < |ids|
    requires |After(Boot(ids), steps, f).nodes| == |ids|
    ensures var c, taken := After(Boot(ids), steps, f).nodes[p], Taken(Boot(ids), steps, f, p);
            && (Own(c, x) <==> x in taken || x in c.seqCh)
            && !(x in taken && x in c.seqCh)
  {
    hide Legal, After, Taken, Boot, Numbers;
    RunPutsUp(ids, steps, f, p);
    var c, taken := After(Boot(ids), steps, f).nodes[p], Taken(Boot(ids), steps, f, p);
    var all := taken + c.seqCh;
    NumbersAre(ids[p], c.issued);
    if Own(c, x) {
      var j := x / SEQ_STEP;
      SeqNumbersAreUnique(c.id, j, c.id, j);
      assert all[j - 1] == x;
    }
    forall i | 0 <= i < |all| && all[i] == x
      ensures Own(c, x)
    {
      SeqNumbersAreUnique(c.id, i + 1, c.id, i + 1);
    }
    assert x in all <==> x in taken || x in c.seqCh;
    if x in taken && x in c.seqCh {
      RepeatedAcross(taken, c.seqCh, x);
    }
  }

  lemma RepeatedAcross(a: seq<int>, b: seq<int>, x: int)
    requires x in a && x in b
    ensures !NoRepeats(a + b)
  {
    var i :| 0 <= i < |a| && a[i] == x;
    var j :| 0 <= j < |b| && b[j] == x;
    assert (a + b)[i] == x && (a + b)[|a| + j] == x;
  }

  /** A broadcast sends the request held under the head of the channel, under that number, to every target. */
  lemma BroadcastSends(s: System, p: NodeId, targets: set<NodeId>, f: nat, t: NodeId)
    requires Enabled(s, Broadcast(p, targets)) && t in targets
    ensures var x := s.nodes[p].seqCh[0];
            exists req :: Holds(s.nodes[p], x, req) && Dup(x, p, t, req) in Next(s, Broadcast(p, targets), f).net
  {
    var x := s.nodes[p].seqCh[0];
    var req := CertOf(s.nodes[p].certs, x).req.value;
    assert Holds(s.nodes[p], x, req);
    assert Dup(x, p, t, req) in Next(s, Broadcast(p, targets), f).net;
  }

  /** The request that a node holds under a number it newly assigns is the one it was given. */
  lemma IssuedIsGiven(s: System, step: Step, f: nat, p: NodeId)
    requires Enabled(s, step) && p < |s.nodes| && Next(s, step, f).nodes[p].issued > s.nodes[p].issued
    ensures var c' := Next(s, step, f).nodes[p];
            && c'.issued == s.nodes[p].issued + 1 && (step.Start? || step.Count?)
            && Holds(c', SeqOf(c'.id, c'.issued), if step.Start? then step.req else step.next)
  {
  }

  /** A node that has stored a message's request holds that request. */
  lemma StoredIsHeld(s: System, m: Msg, f: nat)
    requires Enabled(s, Store(m))
    ensures Holds(Next(s, Store(m), f).nodes[m.to], m.seqNo, m.req)
    ensures Conf(m.seqNo, m.origin, m.to) in Next(s, Store(m), f).net
  {
  }

  // ---- What follows in every reachable state ----

  /** A certified request is stored by its originator and by at least f other nodes, all under the same number. */
  lemma CertifiedIsHeld(s: System, f: nat, p: NodeId, x: int)
    requires Inv(s, f) && p < |s.nodes| && Own(s.nodes[p], x) && x in s.nodes[p].certs && s.nodes[p].certs[x].duplicated
    ensures s.nodes[p].certs[x].req.Some?
    ensures |s.nodes[p].certs[x].votes + {p}| >= f + 1
    ensures forall v :: v in s.nodes[p].certs[x].votes + {p}
              ==> v < |s.nodes| && Holds(s.nodes[v], x, s.nodes[p].certs[x].req.value)
  {
    assert OwnOk(s.nodes[p]) && CertOk(s.nodes, f, p, x);
    var votes := s.nodes[p].certs[x].votes;
    assert p in votes ==> VoterOk(s.nodes, p, x, p);
    assert |votes + {p}| == |votes| + 1;
    forall v | v in votes
      ensures VoterOk(s.nodes, p, x, v)
    {
    }
  }

  /** With f at least one, a node's own request is certified exactly when f peers' confirmations were counted. */
  lemma CertifiedIff(s: System, f: nat, p: NodeId, x: int)
    requires Inv(s, f) && f >= 1 && p < |s.nodes| && Own(s.nodes[p], x)
    ensures x in s.nodes[p].certs
    ensures s.nodes[p].certs[x].duplicated <==> |s.nodes[p].certs[x].votes| >= f
    ensures !s.nodes[p].certs[x].duplicated ==> s.nodes[p].certs[x].queue == []
  {
    assert OwnOk(s.nodes[p]) && CertOk(s.nodes, f, p, x);
  }

  /** Confirmations of one request by at least f distinct peers certify it, in whatever order they come. */
  lemma {:induction false} EnoughConfirmsCertify(c: Certifier, x: int, batch: seq<Confirm>, nexts: seq<Request>, f: nat)
    requires |nexts| == |batch| && f >= 1
    requires x in c.certs && c.certs[x].req.Some? && CountedUp(c.certs[x], f)
    requires forall i :: 0 <= i < |batch| ==> batch[i].seqNo == x
    ensures var c' := ConfirmedAll(c, batch, nexts, f);
            && x in c'.certs && c'.certs[x].req.Some? && CountedUp(c'.certs[x], f)
            && (c'.certs[x].duplicated
                <==> c.certs[x].duplicated || |c.certs[x].votes + Voters(batch)| >= f)
            && (!c'.certs[x].duplicated ==> c'.certs[x].votes == c.certs[x].votes + Voters(batch))
  {
    if batch == [] {
      assert c.certs[x].votes + Voters(batch) == c.certs[x].votes;
    } else {
      var n := |batch| - 1;
      EnoughConfirmsCertify(c, x, batch[..n], nexts[..n], f);
      var before := ConfirmedAll(c, batch[..n], nexts[..n], f);
      VotersSnoc(batch);
      OneConfirm(before, x, batch[n].voter, nexts[n], f);
      var votes := c.certs[x].votes;
      assert votes + Voters(batch) == votes + Voters(batch[..n]) + {batch[n].voter};
      SubsetSize(votes + Voters(batch[..n]), votes + Voters(batch));
    }
  }

  ghost function Voters(batch: seq<Confirm>): set<NodeId> {
    set i | 0 <= i < |batch| :: batch[i].voter
  }

  lemma VotersSnoc(batch: seq<Confirm>)
    requires batch != []
    ensures Voters(batch) == Voters(batch[..|batch| - 1]) + {batch[|batch| - 1].voter}
  {
    var init := batch[..|batch| - 1];
    forall v | v in Voters(batch)
      ensures v in Voters(init) + {batch[|batch| - 1].voter}
    {
      var i :| 0 <= i < |batch| && batch[i].voter == v;
      assert i < |init| ==> init[i].voter == v;
    }
    forall v | v in Voters(init)
      ensures v in Voters(batch)
    {
      var i :| 0 <= i < |init| && init[i].voter == v;
      assert batch[i].voter == v;
    }
  }

  lemma OneConfirm(c: Certifier, x: int, voter: NodeId, next: Request, f: nat)
    requires f >= 1 && x in c.certs && c.certs[x].req.Some? && CountedUp(c.certs[x], f)
    ensures var c' := Confirmed(c, x, voter, f, next);
            && x in c'.certs && c'.certs[x].req.Some? && CountedUp(c'.certs[x], f)
            && (c'.certs[x].duplicated <==> c.certs[x].duplicated || |c.certs[x].votes + {voter}| >= f)
            && (!c'.certs[x].duplicated ==> c'.certs[x].votes == c.certs[x].votes + {voter})
  {
    assert Elements([voter]) == {voter};
    assert c.certs[x].queue == [] ==> c.certs[x].queue + [voter] == [voter];
  }

  ghost function OwnNumbers(c: Certifier, below: nat): set<int> {
    if below <= 1 then {} else OwnNumbers(c, below - 1) + {SeqOf(c.id, below - 1)}
  }

  lemma {:induction false} CountOwnNumbers(c: Certifier, below: nat)
    requires IdRange(c.id) && 1 <= below
    ensures |OwnNumbers(c, below)| == below - 1
    ensures forall x :: x in OwnNumbers(c, below) <==> x % SEQ_STEP == c.id && 1 <= x / SEQ_STEP < below
  {
    if below > 1 {
      CountOwnNumbers(c, below - 1);
      SeqNumbersAreUnique(c.id, below - 1, c.id, 0);
      forall x
        ensures x == SeqOf(c.id, below - 1) <==> x % SEQ_STEP == c.id && x / SEQ_STEP == below - 1
      {
      }
    }
  }

  /** The certified numbers among a node's own. */
  ghost function CertifiedNumbers(c: Certifier): set<int> {
    set x | x in c.certs && Own(c, x) && c.certs[x].duplicated
  }

  /** After start, a node has certified exactly its requests 1 to j - 1 of the j it has assigned. */
  lemma OneMoreAssigned(s: System, f: nat, p: NodeId)
    requires Inv(s, f) && p < |s.nodes| && s.nodes[p].issued >= 1
    ensures forall j: nat :: 1 <= j <= s.nodes[p].issued
              ==> (SeqOf(s.nodes[p].id, j) in CertifiedNumbers(s.nodes[p]) <==> j < s.nodes[p].issued)
    ensures |CertifiedNumbers(s.nodes[p])| == s.nodes[p].issued - 1
  {
    hide Consistent;
    var c := s.nodes[p];
    InvFacts(s, f, p);
    CountOwnNumbers(c, c.issued);
    forall x
      ensures x in CertifiedNumbers(c) <==> x in OwnNumbers(c, c.issued)
    {
      assert x in OwnNumbers(c, c.issued) ==> Own(c, x);
    }
    assert CertifiedNumbers(c) == OwnNumbers(c, c.issued);
    forall j: nat | 1 <= j <= c.issued
      ensures SeqOf(c.id, j) in CertifiedNumbers(c) <==> j < c.issued
    {
      SeqNumbersAreUnique(c.id, j, c.id, j);
    }
  }

  /** The unit of a certified request. */
  ghost predicate CertifiedBy(s: System, u: Unit) {
    && u.origin < |s.nodes| && Own(s.nodes[u.origin], u.seqNo) && u.seqNo in s.nodes[u.origin].certs
    && var cert := s.nodes[u.origin].certs[u.seqNo];
       cert.duplicated && cert.req.Some? && cert.req.value.txNum == u.txNum
  }

  /** A step certifies exactly its outcome, which was not certified before; certified requests stay certified. */
  lemma CertifiedOnce(s: System, step: Step, f: nat, u: Unit)
    requires Inv(s, f) && Enabled(s, step)
    ensures CertifiedBy(Next(s, step, f), u) <==> CertifiedBy(s, u) || Outcome(s, step, f) == Some(u)
    ensures Outcome(s, step, f) == Some(u) ==> !CertifiedBy(s, u)
  {
    hide CertOk, Inv;
    match step
    case Start(p, req) =>
      InvFacts(s, f, p);
      IssuedCertifies(s, f, p, req, u);
    case Count(m, next) => CountCertifies(s, m, next, f, u);
    case Store(m) => StoreCertifies(s, m, f, u);
    case _ =>
  }

  lemma InvFacts(s: System, f: nat, p: NodeId)
    requires Inv(s, f) && p < |s.nodes|
    ensures Consistent(s, f) && OwnOk(s.nodes[p]) && IdRange(s.nodes[p].id)
  {
  }

  lemma IssuedCertifies(s: System, f: nat, p: NodeId, req: Request, u: Unit)
    requires Consistent(s, f) && p < |s.nodes|
    ensures CertifiedBy(s.(nodes := s.nodes[p := Issued(s.nodes[p], req)]), u) <==> CertifiedBy(s, u)
  {
    hide CertOk, Consistent;
    NewNumberIsUnused(s, f, p);
    ConsistentIds(s, f);
    OwnAfterIssue(s.nodes[p], req, u.seqNo);
  }

  lemma StoreCertifies(s: System, m: Msg, f: nat, u: Unit)
    requires Inv(s, f) && Enabled(s, Store(m))
    ensures CertifiedBy(Next(s, Store(m), f), u) <==> CertifiedBy(s, u)
  {
    hide CertOk, Consistent;
    InvFacts(s, f, m.to);
    StoredCert(s, m, f);
    assert forall y :: Own(Next(s, Store(m), f).nodes[m.to], y) <==> Own(s.nodes[m.to], y);
  }

  lemma CountCertifies(s: System, m: Msg, next: Request, f: nat, u: Unit)
    requires Inv(s, f) && Enabled(s, Count(m, next))
    ensures CertifiedBy(Next(s, Count(m, next), f), u) <==> CertifiedBy(s, u) || Outcome(s, Count(m, next), f) == Some(u)
    ensures Outcome(s, Count(m, next), f) == Some(u) ==> !CertifiedBy(s, u)
  {
    hide CertOk, Consistent;
    var p := m.origin;
    InvFacts(s, f, p);
    ConfOk(s, f, m);
    HeardKeepsConsistent(s, f, m);
    var c' := Heard(s.nodes[p], m.seqNo, m.voter, f);
    var mid := s.(nodes := s.nodes[p := c']);
    assert forall y :: Own(c', y) <==> Own(s.nodes[p], y);
    assert CertifiedBy(mid, u) <==> CertifiedBy(s, u) || Outcome(s, Count(m, next), f) == Some(u);
    if Certifies(s.nodes[p], m.seqNo, m.voter, f) {
      IssuedCertifies(mid, f, p, next, u);
      assert mid.nodes[p := Issued(c', next)] == s.nodes[p := Issued(c', next)];
    }
  }

  lemma StepGrows(s: System, step: Step, f: nat)
    requires Inv(s, f) && Enabled(s, step)
    ensures Grown(s.nodes, Next(s, step, f).nodes)
  {
    hide CertOk, Consistent, Own, Issued;
    match step
    case Start(p, req) =>
      InvFacts(s, f, p);
      IssueGrows(s, f, p, req);
    case Count(m, next) =>
      ConfOk(s, f, m);
      HeardKeepsConsistent(s, f, m);
      var c' := Heard(s.nodes[m.origin], m.seqNo, m.voter, f);
      var mid := s.(nodes := s.nodes[m.origin := c']);
      assert Grown(s.nodes, mid.nodes);
      if Certifies(s.nodes[m.origin], m.seqNo, m.voter, f) {
        IssueGrows(mid, f, m.origin, next);
        GrowthAddsUp(s.nodes, mid.nodes, mid.nodes[m.origin := Issued(c', next)]);
        assert mid.nodes[m.origin := Issued(c', next)] == s.nodes[m.origin := Issued(c', next)];
      }
    case Store(m) => StoredCert(s, m, f);
    case _ =>
  }

  lemma GrowthAddsUp(a: seq<Certifier>, b: seq<Certifier>, c: seq<Certifier>)
    requires Grown(a, b) && Grown(b, c)
    ensures Grown(a, c)
  {
    forall p | 0 <= p < |a|
      ensures NodeGrown(a[p], c[p])
    {
      assert NodeGrown(a[p], b[p]) && NodeGrown(b[p], c[p]);
    }
  }

  // ---- All requests by number ----

  /** The requests held in a set of certificates. */
  ghost function HeldIn(certs: Certs): Requests {
    map s | s in certs && certs[s].req.Some? :: certs[s].req.value
  }

  lemma HeldInIff(certs: Certs, s: int)
    ensures s in HeldIn(certs) <==> s in certs && certs[s].req.Some?
    ensures s in HeldIn(certs) ==> certs[s].req == Some(HeldIn(certs)[s])
  {
  }

  /** The requests a node holds. */
  ghost function Held(c: Certifier): Requests {
    HeldIn(c.certs)
  }

  /** The requests any node holds. */
  ghost function Registry(nodes: seq<Certifier>): Requests {
    if nodes == [] then map[] else Registry(nodes[..|nodes| - 1]) + Held(nodes[|nodes| - 1])
  }

  lemma {:induction false} RegistrySource(nodes: seq<Certifier>, s: int) returns (p: NodeId)
    requires s in Registry(nodes)
    ensures p < |nodes| && s in Held(nodes[p]) && Held(nodes[p])[s] == Registry(nodes)[s]
  {
    if s in Held(nodes[|nodes| - 1]) {
      p := |nodes| - 1;
    } else {
      p := RegistrySource(nodes[..|nodes| - 1], s);
    }
  }

  lemma {:induction false} HeldIsRegistered(nodes: seq<Certifier>, p: NodeId, s: int)
    requires p < |nodes| && s in Held(nodes[p])
    ensures s in Registry(nodes)
  {
    if p < |nodes| - 1 {
      HeldIsRegistered(nodes[..|nodes| - 1], p, s);
    }
  }

  /** What a node holds agrees with what any other node holds. */
  lemma HeldAgrees(s: System, f: nat, p: NodeId)
    requires Consistent(s, f) && p < |s.nodes|
    ensures forall x :: x in Held(s.nodes[p]) ==> x in Registry(s.nodes) && Registry(s.nodes)[x] == Held(s.nodes[p])[x]
  {
    hide Consistent;
    forall x | x in Held(s.nodes[p])
      ensures x in Registry(s.nodes) && Registry(s.nodes)[x] == Held(s.nodes[p])[x]
    {
      HeldIsRegistered(s.nodes, p, x);
      var q := RegistrySource(s.nodes, x);
      OneRequestPerNumber(s, f, p, q, x, Held(s.nodes[p])[x], Held(s.nodes[q])[x]);
    }
  }

  lemma RegistryGrows(a: System, b: System, f: nat)
    requires Consistent(b, f) && Grown(a.nodes, b.nodes)
    ensures forall x :: x in Registry(a.nodes) ==> x in Registry(b.nodes) && Registry(b.nodes)[x] == Registry(a.nodes)[x]
  {
    hide Consistent;
    forall x | x in Registry(a.nodes)
      ensures x in Registry(b.nodes) && Registry(b.nodes)[x] == Registry(a.nodes)[x]
    {
      var p := RegistrySource(a.nodes, x);
      assert NodeGrown(a.nodes[p], b.nodes[p]);
      assert x in Held(b.nodes[p]);
      HeldAgrees(b, f, p);
    }
  }

  lemma InvIsConsistent(s: System, f: nat)
    requires Inv(s, f)
    ensures Consistent(s, f)
  {
  }

  lemma KeepsNodes(s: System, step: Step, f: nat)
    requires Enabled(s, step)
    ensures |Next(s, step, f).nodes| == |s.nodes|
  {
  }
}
