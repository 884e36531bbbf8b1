/** One server: its block log, pool of certified requests, certificates and executor, as its handlers update
    them. Every handler is tied to the step of the transition system it performs. */
module Server {
  import opened Types
  import opened ExecSpec
  import opened Records
  import SeqNums
  import Effects
  import Y = Ycsb
  import C = Certification
  import P = Pipeline
  import S = PipelineSafety

  class Server {
    const self: NodeId
    const id: int
    const faultNum: nat
    const batchTxNum: int

    // blocks
    var currentBlockIndex: nat
    var localCommittedTxNum: int
    var localDuplicatedReqs: seq<Unit>
    var height2blockLog: map<int, BlockLog>
    var execCh: seq<int>

    // certification
    var seqInc: int
    var seq2cert: map<int, LogCert>
    var seqCh: seq<int>
    ghost var issued: nat

    // execution
    var taken: nat
    var curExecHeight: int
    var aheadSet: set<int>
    var db: Y.Database
    var panicked: bool
    ghost var executed: seq<Block>

    // ---- Views ----

    ghost function BlockLogs(): Log
      reads this`height2blockLog, height2blockLog.Values
    {
      map h | h in height2blockLog :: height2blockLog[h].View()
    }

    ghost function Executor(): Exec
      reads this`curExecHeight, this`aheadSet, this`executed, this`panicked, this`db, db
    {
      Exec(curExecHeight, aheadSet, executed, db.kv, panicked)
    }

    /** The pipeline part of the server. */
    ghost function Replica(): P.Replica
      reads this, height2blockLog.Values, db
    {
      P.Replica(currentBlockIndex, localCommittedTxNum, localDuplicatedReqs, BlockLogs(), execCh, taken, Executor())
    }

    ghost function Certs(): C.Certs
      reads this`seq2cert, seq2cert.Values
    {
      map s | s in seq2cert :: seq2cert[s].View()
    }

    /** The certification part of the server. */
    ghost function Certifier(): C.Certifier
      reads this`seq2cert, this`issued, this`seqCh, seq2cert.Values
    {
      C.Certifier(id, issued, Certs(), seqCh)
    }

    // ---- Invariants ----

    /** Heights have records of their own, labelled with the height. */
    ghost predicate BlocksValid()
      reads this`height2blockLog, height2blockLog.Values
    {
      && (forall h :: h in height2blockLog ==> height2blockLog[h].blockIndex == h)
      && forall g, h :: g in height2blockLog && h in height2blockLog && g != h ==> height2blockLog[g] != height2blockLog[h]
    }

    /** Sequence numbers have certificates of their own, and the counter is the last number assigned. */
    ghost predicate CertsValid()
      reads this`seq2cert, this`issued, this`seqInc, seq2cert.Values
    {
      && (forall s :: s in seq2cert ==> seq2cert[s].seqNo == s)
      && (forall s, t :: s in seq2cert && t in seq2cert && s != t ==> seq2cert[s] != seq2cert[t])
      && seqInc == SeqNums.SeqOf(id, issued)
    }

    constructor (self: NodeId, id: int, faultNum: nat, batchTxNum: int)
      ensures BlocksValid() && CertsValid()
      ensures Replica() == P.BOOT && Certifier() == C.Certifier(id, 0, map[], [])
      ensures this.self == self && this.id == id && this.faultNum == faultNum && this.batchTxNum == batchTxNum
      ensures fresh(db) && fresh(height2blockLog.Values)
    {
      this.self, this.id, this.faultNum, this.batchTxNum := self, id, faultNum, batchTxNum;
      currentBlockIndex, localCommittedTxNum, localDuplicatedReqs, execCh := 0, 0, [], [];
      seqInc, seq2cert, seqCh, issued := id, map[], [], 0;
      taken, curExecHeight, aheadSet, panicked, executed := 0, 1, {}, false, [];
      db := new Y.Database();
      var genesis := new BlockLog(0, [], 0, false, false);
      height2blockLog := map[0 := genesis];
      new;
      assert BlockLogs() == map[0 := P.EMPTY_ENTRY];
    }

    // ---- The block pipeline ----

    /** Turns the pool into the next block and announces it with the commit of the block before. */
    method Sending() returns (msg: P.Sending)
      requires BlocksValid()
      modifies this`currentBlockIndex, this`localCommittedTxNum, this`localDuplicatedReqs, this`height2blockLog
      ensures BlocksValid()
      ensures Replica() == P.Proposed(old(Replica()))
      ensures msg == P.Announcement(old(Replica()))
      ensures localCommittedTxNum == old(localCommittedTxNum) + P.Weight(multiset(old(localDuplicatedReqs)))
      ensures currentBlockIndex in height2blockLog
      ensures height2blockLog[currentBlockIndex].txNum == P.Weight(multiset(old(localDuplicatedReqs)))
    {
      hide P.Weight, P.TxSum;
      currentBlockIndex := currentBlockIndex + 1;
      var reqs, txNum := CopyPool();
      msg := P.Sending(currentBlockIndex, currentBlockIndex - 1, reqs);
      var newBlockLog := new BlockLog(currentBlockIndex, localDuplicatedReqs, txNum, false, false);
      localCommittedTxNum := localCommittedTxNum + txNum;
      height2blockLog := height2blockLog[currentBlockIndex := newBlockLog];
      localDuplicatedReqs := [];
      assert BlockLogs() == old(BlockLogs())[currentBlockIndex := newBlockLog.View()];
    }

    /** Copies the pool and adds up its transactions. */
    method CopyPool() returns (reqs: seq<Unit>, txNum: int)
      ensures reqs == localDuplicatedReqs && txNum == P.TxSum(localDuplicatedReqs)
      ensures txNum == P.Weight(multiset(localDuplicatedReqs))
    {
      P.TxSumIsWeight(localDuplicatedReqs);
      reqs, txNum := [], 0;
      for i := 0 to |localDuplicatedReqs|
        invariant reqs == localDuplicatedReqs[..i] && txNum == P.TxSum(localDuplicatedReqs[..i])
      {
        reqs := reqs + [localDuplicatedReqs[i]];
        txNum := txNum + localDuplicatedReqs[i].txNum;
        assert localDuplicatedReqs[..i + 1][..i] == localDuplicatedReqs[..i];
      }
      assert localDuplicatedReqs[..|localDuplicatedReqs|] == localDuplicatedReqs;
    }

    /** A follower handles an announcement and reports its certified requests. */
    method Receiving(msg: P.Sending) returns (reply: P.Reply)
      requires BlocksValid()
      modifies this`localDuplicatedReqs, this`height2blockLog, this`execCh, height2blockLog.Values
      ensures BlocksValid()
      ensures Replica() == P.Followed(old(Replica()), msg)
      ensures reply == P.Answer(old(Replica()), msg, self)
    {
      hide BlocksValid, BlockLogs, P.Stored, P.Noticed;
      StoreBlock(msg);
      NoticeCommit(msg.commit);
      reply := P.Reply(msg.height, msg.commit, localDuplicatedReqs, self);
      localDuplicatedReqs := [];
    }

    /** First half of `Receiving`: the block. */
    method StoreBlock(msg: P.Sending)
      requires BlocksValid()
      modifies this`height2blockLog, height2blockLog.Values
      ensures BlocksValid()
      ensures Replica() == P.Stored(old(Replica()), msg)
      ensures fresh(height2blockLog.Values - old(height2blockLog.Values))
    {
      if msg.height !in height2blockLog {
        var prepareBlockLog := new BlockLog(msg.height, msg.reqs, 0, true, false);
        height2blockLog := height2blockLog[msg.height := prepareBlockLog];
      } else {
        height2blockLog[msg.height].prepared := true;
        assert forall h :: h in height2blockLog && h != msg.height ==> height2blockLog[h] != height2blockLog[msg.height];
      }
      assert BlockLogs().Keys == P.Stored(old(Replica()), msg).log.Keys;
      assert forall h :: h in BlockLogs() ==> BlockLogs()[h] == P.Stored(old(Replica()), msg).log[h];
    }

    /** Second half of `Receiving`: the commit notice. */
    method NoticeCommit(commit: int)
      requires BlocksValid()
      modifies this`height2blockLog, this`execCh, height2blockLog.Values
      ensures BlocksValid()
      ensures Replica() == P.Noticed(old(Replica()), commit)
    {
      if commit !in height2blockLog {
        var commitBlockLog := new BlockLog(commit, [], 0, false, true);
        height2blockLog := height2blockLog[commit := commitBlockLog];
        assert BlockLogs() == P.Noticed(old(Replica()), commit).log;
      } else {
        var commitBlockLog := height2blockLog[commit];
        commitBlockLog.committed := true;
        assert forall h :: h in height2blockLog && h != commit ==> height2blockLog[h] != commitBlockLog;
        assert BlockLogs().Keys == old(BlockLogs()).Keys;
        assert BlockLogs() == old(BlockLogs())[commit := old(BlockLogs())[commit].(committed := true)];
        QueueIfDecided(commitBlockLog);
      }
    }

    /** Puts a height with both flags on the execution channel, once. */
    method QueueIfDecided(blockLog: BlockLog)
      requires BlocksValid() && blockLog.blockIndex in height2blockLog && height2blockLog[blockLog.blockIndex] == blockLog
      modifies this`execCh, blockLog
      ensures BlocksValid()
      ensures Replica() == P.Queue(old(Replica()), blockLog.blockIndex)
    {
      if blockLog.prepared && blockLog.committed && !blockLog.executed {
        blockLog.executed := true;
        execCh := execCh + [blockLog.blockIndex];
      }
      assert forall h :: h in height2blockLog && h != blockLog.blockIndex ==> height2blockLog[h] != blockLog;
      assert BlockLogs().Keys == old(BlockLogs()).Keys;
      assert BlockLogs() == P.Queue(old(Replica()), blockLog.blockIndex).log;
    }

    /** The proposer handles a follower's answer; unknown heights make it ignore the answer altogether. */
    method HandleReply(reply: P.Reply)
      requires BlocksValid() && reply.prepared != reply.committed
      modifies this`localDuplicatedReqs, this`execCh, height2blockLog.Values
      ensures BlocksValid()
      ensures Replica() == P.Confirmed(old(Replica()), reply, faultNum)
      ensures reply.prepared !in old(height2blockLog) || reply.committed !in old(height2blockLog)
              ==> Replica() == old(Replica())
    {
      if reply.prepared !in height2blockLog || reply.committed !in height2blockLog {
        return;
      }
      hide BlocksValid, BlockLogs, S.Counted, P.Confirmed, P.Queue;
      CountReply(reply);
      S.ConfirmedIsCounted(old(Replica()), reply, faultNum);
      QueueIfDecided(height2blockLog[reply.committed]);
      Absorb(reply.gathered);
    }

    /** Counts an answer for its block and for the commit it confirms. */
    method CountReply(reply: P.Reply)
      requires BlocksValid() && reply.prepared != reply.committed
      requires reply.prepared in height2blockLog && reply.committed in height2blockLog
      modifies height2blockLog.Values
      ensures BlocksValid()
      ensures reply.prepared in old(Replica()).log && reply.committed in old(Replica()).log
      ensures height2blockLog[reply.committed].blockIndex == reply.committed
      ensures Replica() == S.Counted(old(Replica()), reply, faultNum)
    {
      var prepareBlockLog := height2blockLog[reply.prepared];
      var commitBlockLog := height2blockLog[reply.committed];
      assert prepareBlockLog != commitBlockLog;
      prepareBlockLog.prepareConfirmNodes := prepareBlockLog.prepareConfirmNodes + [reply.from];
      commitBlockLog.commitConfirmNodes := commitBlockLog.commitConfirmNodes + [reply.from];
      prepareBlockLog.Check(faultNum);
      commitBlockLog.Check(faultNum);
      assert forall h :: h in height2blockLog && h != reply.prepared && h != reply.committed ==> (
          height2blockLog[h] != prepareBlockLog && height2blockLog[h] != commitBlockLog);
      var after := S.Counted(old(Replica()), reply, faultNum).log;
      assert BlockLogs().Keys == after.Keys;
      assert BlockLogs()[reply.prepared] == after[reply.prepared];
      assert BlockLogs()[reply.committed] == after[reply.committed];
      assert BlockLogs() == after;
    }

    /** Appends reported requests to the pool. */
    method Absorb(units: seq<Unit>)
      modifies this`localDuplicatedReqs
      ensures localDuplicatedReqs == old(localDuplicatedReqs) + units
    {
      for i := 0 to |units|
        invariant localDuplicatedReqs == old(localDuplicatedReqs) + units[..i]
      {
        localDuplicatedReqs := localDuplicatedReqs + [units[i]];
        assert units[..i + 1] == units[..i] + [units[i]];
      }
      assert units[..|units|] == units;
    }

    // ---- Certification of requests ----

    method AssignSeq() returns (seqNo: int)
      requires seqInc == SeqNums.SeqOf(id, issued)
      modifies this`seqInc, this`issued
      ensures seqInc == SeqNums.SeqOf(id, issued) && issued == old(issued) + 1
      ensures seqNo == SeqNums.SeqOf(id, issued) && seqNo == seqInc == old(seqInc) + 10_000_000_000
    {
      seqInc := seqInc + SeqNums.SEQ_STEP;
      issued := issued + 1;
      seqNo := seqInc;
    }

    /** The certificate of a sequence number, created empty on first use. */
    method GetCertOrNew(seqNo: int) returns (cert: LogCert)
      requires CertsValid()
      modifies this`seq2cert
      ensures CertsValid() && seqNo in seq2cert && seq2cert[seqNo] == cert && cert.seqNo == seqNo
      ensures forall s :: s in seq2cert && s != seqNo ==> seq2cert[s] != cert
      ensures Certs() == old(Certs())[seqNo := C.CertOf(old(Certs()), seqNo)]
      ensures cert.View() == C.CertOf(old(Certs()), seqNo)
      ensures cert in old(seq2cert.Values) || fresh(cert)
      ensures fresh(seq2cert.Values - old(seq2cert.Values))
    {
      if seqNo !in seq2cert {
        cert := new LogCert(seqNo);
        seq2cert := seq2cert[seqNo := cert];
        assert Certs() == old(Certs())[seqNo := C.NEW_CERT];
      } else {
        cert := seq2cert[seqNo];
      }
    }

    /** Stores a request under a sequence number. */
    method StoreRequest(seqNo: int, req: Request, duplicator: NodeId)
      requires CertsValid()
      modifies this`seq2cert, seq2cert.Values
      ensures CertsValid()
      ensures Certifier() == C.Stored(old(Certifier()), seqNo, req)
      ensures fresh(seq2cert.Values - old(seq2cert.Values))
      ensures seqNo in seq2cert && seq2cert[seqNo].req == Some(req) && seq2cert[seqNo].duplicator == duplicator
    {
      hide CertsValid, Certs, C.CertOf;
      var cert := GetCertOrNew(seqNo);
      label stored:
      cert.Set(Some(req), duplicator);
      OneCertChanged@stored(cert);
    }

    /** After one certificate changed, the others read the same. */
    twostate lemma OneCertChanged(cert: LogCert)
      requires old(CertsValid()) && unchanged(this`seq2cert) && unchanged(this`issued) && unchanged(this`seqInc)
      requires cert.seqNo in seq2cert && seq2cert[cert.seqNo] == cert
      requires forall s :: s in seq2cert && s != cert.seqNo ==> unchanged(seq2cert[s])
      ensures CertsValid()
      ensures Certs() == old(Certs())[cert.seqNo := cert.View()]
    {
      assert Certs().Keys == old(Certs()).Keys;
      forall s | s in seq2cert && s != cert.seqNo
        ensures Certs()[s] == old(Certs())[s]
      {
        assert unchanged(seq2cert[s]);
        assert seq2cert[s].View() == old(seq2cert[s].View());
      }
    }

    /** Creates the node's next request. The generated transactions are the argument. */
    method MakeReq(txs: seq<Tx>)
      requires CertsValid()
      modifies this`seqInc, this`issued, this`seq2cert, this`seqCh, seq2cert.Values
      ensures CertsValid()
      ensures Certifier() == C.Issued(old(Certifier()), Request(txs, batchTxNum))
      ensures fresh(seq2cert.Values - old(seq2cert.Values))
      ensures seqInc == old(seqInc) + 10_000_000_000 && seqCh == old(seqCh) + [seqInc]
      ensures seqInc in seq2cert && seq2cert[seqInc].req == Some(Request(txs, batchTxNum)) && seq2cert[seqInc].duplicator == self
    {
      var seqNo := AssignSeq();
      StoreRequest(seqNo, Request(txs, batchTxNum), self);
      seqCh := seqCh + [seqNo];
    }

    /** Broadcasts the request of a sequence number to the given peers. */
    method Duplicate(seqNo: int, peers: set<NodeId>) returns (msgs: set<C.Msg>)
      requires seqNo in seq2cert && seq2cert[seqNo].req.Some?
      ensures msgs == set t | t in peers :: C.Dup(seqNo, self, t, seq2cert[seqNo].req.value)
    {
      var req := seq2cert[seqNo].req.value;
      msgs := {};
      var left := peers;
      while left != {}
        invariant left <= peers
        invariant msgs == set t | t in peers - left :: C.Dup(seqNo, self, t, req)
        decreases left
      {
        var t :| t in left;
        msgs := msgs + {C.Dup(seqNo, self, t, req)};
        left := left - {t};
      }
      assert peers - left == peers;
    }

    /** One pass of the work loop: takes the next number from the channel and broadcasts its request. */
    method BroadcastNext(peers: set<NodeId>) returns (seqNo: int, msgs: set<C.Msg>)
      requires CertsValid() && seqCh != [] && seqCh[0] in seq2cert && seq2cert[seqCh[0]].req.Some?
      modifies this`seqCh
      ensures CertsValid() && [seqNo] + seqCh == old(seqCh)
      ensures Certifier() == old(Certifier()).(seqCh := seqCh)
      ensures seq2cert[seqNo].req.Some?
      ensures msgs == set t | t in peers :: C.Dup(seqNo, self, t, seq2cert[seqNo].req.value)
    {
      seqNo := seqCh[0];
      seqCh := seqCh[1..];
      msgs := Duplicate(seqNo, peers);
    }

    /** A peer stores the request and confirms. */
    method DuplicateRpc(msg: C.Msg) returns (confirm: C.Msg)
      requires CertsValid() && msg.Dup?
      modifies this`seq2cert, seq2cert.Values
      ensures CertsValid()
      ensures Certifier() == C.Stored(old(Certifier()), msg.seqNo, msg.req)
      ensures msg.seqNo in seq2cert && seq2cert[msg.seqNo].req == Some(msg.req) && seq2cert[msg.seqNo].duplicator == msg.origin
      ensures confirm == C.Conf(msg.seqNo, msg.origin, self)
    {
      StoreRequest(msg.seqNo, msg.req, msg.origin);
      confirm := C.Conf(msg.seqNo, msg.origin, self);
    }

    /** The certificate of a number is what the view shows there, and no other number shares it. */
    lemma OneCert(cert: LogCert)
      requires CertsValid() && cert.seqNo in seq2cert && seq2cert[cert.seqNo] == cert
      ensures cert.seqNo in Certs() && Certs()[cert.seqNo] == cert.View()
      ensures Certs()[cert.seqNo := cert.View()] == Certs()
      ensures forall s :: s in seq2cert && s != cert.seqNo ==> seq2cert[s] != cert
    {
    }

    /** Counts the queued confirmations of a request and moves it to the next stage if they are enough. */
    method CountBallot(cert: LogCert) returns (enough: bool)
      requires CertsValid() && cert.seqNo in seq2cert && seq2cert[cert.seqNo] == cert
      requires cert.stage == InitialStage && cert.req.Some?
      modifies cert
      ensures CertsValid() && cert.req == old(cert.req)
      ensures cert.seqNo in old(Certs())
      ensures Certs() == old(Certs())[cert.seqNo := C.Counted(old(Certs())[cert.seqNo], faultNum)]
      ensures enough <==> C.Counted(old(Certs())[cert.seqNo], faultNum).duplicated
    {
      hide CertsValid, Certs;
      OneCert(cert);
      label counting:
      cert.CountConfirms();
      var ballot := cert.DuplicateConfirmBallot();
      enough := ballot >= faultNum;
      if enough {
        cert.SetStage(DuplicatedStage);
      }
      OneCertChanged@counting(cert);
    }

    /** Counts the queued confirmations of a request that is not certified yet; enough of them certify it,
        put it in the pool and start the next request. */
    method VerifyBallot(cert: LogCert, txs: seq<Tx>)
      requires CertsValid() && cert.seqNo in seq2cert && seq2cert[cert.seqNo] == cert && cert.stage == InitialStage
      modifies this`localDuplicatedReqs, this`seqInc, this`issued, this`seq2cert, this`seqCh, seq2cert.Values
      ensures CertsValid() && fresh(seq2cert.Values - old(seq2cert.Values))
      ensures var c, x := old(Certifier()), cert.seqNo;
              var counted := C.Counted(c.certs[x], faultNum);
              var c' := c.(certs := c.certs[x := counted]);
              && Certifier() == (if counted.duplicated then C.Issued(c', Request(txs, batchTxNum)) else c')
              && localDuplicatedReqs == old(localDuplicatedReqs)
                   + (if counted.duplicated then [Unit(x, self, old(cert.req).value.txNum)] else [])
    {
      hide CertsValid, Certs, C.Issued;
      OneCert(cert);
      if cert.req.None? {
        return;
      }
      hide C.Counted;
      var req := cert.req.value;
      var enough := CountBallot(cert);
      if enough {
        localDuplicatedReqs := localDuplicatedReqs + [Unit(cert.seqNo, self, req.txNum)];
        MakeReq(txs);
      }
    }

    /** A confirmation comes back from a peer. */
    method OnDuplicateConfirm(seqNo: int, voter: NodeId, txs: seq<Tx>)
      requires CertsValid()
      modifies this`localDuplicatedReqs, this`seqInc, this`issued, this`seq2cert, this`seqCh, seq2cert.Values
      ensures CertsValid() && fresh(seq2cert.Values - old(seq2cert.Values))
      ensures Certifier() == C.Confirmed(old(Certifier()), seqNo, voter, faultNum, Request(txs, batchTxNum))
      ensures var was, now := C.CertOf(old(Certs()), seqNo), C.CertOf(Certs(), seqNo);
              if !was.duplicated && now.duplicated then
                && was.req.Some?
                && var u := Unit(seqNo, self, was.req.value.txNum);
                   localDuplicatedReqs == old(localDuplicatedReqs) + [u] && Replica() == P.Collected(old(Replica()), u)
              else
                localDuplicatedReqs == old(localDuplicatedReqs) && Replica() == old(Replica())
    {
      hide CertsValid, Certs, BlockLogs, Executor, OneGain;
      hide C.CertOf, C.Issued, C.Confirmed, C.Certifies, C.Counted, C.CertifiedUnit;
      ghost var gain := OneGain(seqNo, voter);
      OneGainIs(seqNo, voter, Request(txs, batchTxNum));
      CountAndGain(seqNo, voter, txs);
      assert Replica() == old(Replica()).(pool := old(localDuplicatedReqs) + gain);
    }

    /** Queues the confirmation and, while the request is not certified, counts. */
    method CountAndGain(seqNo: int, voter: NodeId, txs: seq<Tx>)
      requires CertsValid()
      modifies this`localDuplicatedReqs, this`seqInc, this`issued, this`seq2cert, this`seqCh, seq2cert.Values
      ensures CertsValid() && fresh(seq2cert.Values - old(seq2cert.Values))
      ensures Certifier() == C.Confirmed(old(Certifier()), seqNo, voter, faultNum, Request(txs, batchTxNum))
      ensures localDuplicatedReqs == old(localDuplicatedReqs) + old(OneGain(seqNo, voter))
    {
      hide CertsValid, Certs, C.Issued, C.Confirmed, C.Certifies, C.Counted;
      ConfirmedInParts(old(Certifier()), seqNo, voter, faultNum, Request(txs, batchTxNum));
      var cert := PushConfirm(seqNo, voter);
      if cert.stage == InitialStage {
        VerifyBallot(cert, txs);
      }
    }

    /** Queues a confirmation at its certificate. */
    method PushConfirm(seqNo: int, voter: NodeId) returns (cert: LogCert)
      requires CertsValid()
      modifies this`seq2cert, seq2cert.Values
      ensures CertsValid() && fresh(seq2cert.Values - old(seq2cert.Values))
      ensures seqNo in seq2cert && seq2cert[seqNo] == cert && cert.seqNo == seqNo
      ensures seqNo in Certs() && cert.View() == Certs()[seqNo]
      ensures Certifier() == Pushed(old(Certifier()), seqNo, voter)
    {
      hide CertsValid, Certs, C.CertOf;
      cert := GetCertOrNew(seqNo);
      label pushing:
      cert.PushDuplicateConfirm(voter);
      OneCertChanged@pushing(cert);
    }

    /** A relay hands over the confirmations it collected, one after the other. The pool grows by one unit for each
        number whose certificate became certified. */
    method PrimaryReceiveBackRpc(batch: seq<C.Confirm>, txs: seq<seq<Tx>>) returns (ghost gained: seq<Unit>)
      requires CertsValid() && |txs| == |batch|
      modifies this`localDuplicatedReqs, this`seqInc, this`issued, this`seq2cert, this`seqCh, seq2cert.Values
      ensures CertsValid() && fresh(seq2cert.Values - old(seq2cert.Values))
      ensures Certifier() == C.ConfirmedAll(old(Certifier()), batch, Requests(txs), faultNum)
      ensures C.GainedBy(old(Certifier()), batch, Requests(txs), faultNum, self, gained)
      ensures localDuplicatedReqs == old(localDuplicatedReqs) + gained
      ensures Replica() == old(Replica()).(pool := old(localDuplicatedReqs) + gained)
    {
      hide CertsValid, Certs, C.Confirmed, C.CertOf, C.GainedBy, BlockLogs, Executor;
      ghost var c, nexts := Certifier(), Requests(txs);
      gained := [];
      C.NothingGained(c, faultNum, self);
      for i := 0 to |batch|
        invariant CertsValid() && fresh(seq2cert.Values - old(seq2cert.Values))
        invariant Certifier() == C.ConfirmedAll(c, batch[..i], nexts[..i], faultNum)
        invariant C.GainedBy(c, batch[..i], nexts[..i], faultNum, self, gained)
        invariant localDuplicatedReqs == old(localDuplicatedReqs) + gained
        invariant Replica() == old(Replica()).(pool := localDuplicatedReqs)
      {
        assert batch[..i + 1][..i] == batch[..i] && nexts[..i + 1][..i] == nexts[..i];
        C.GainOne(c, batch[..i + 1], nexts[..i + 1], faultNum, self, gained);
        OneGainIs(batch[i].seqNo, batch[i].voter, Request(txs[i], batchTxNum));
        ghost var gain := OneGain(batch[i].seqNo, batch[i].voter);
        assert gained + [] == gained;
        assert nexts[..i + 1][i] == nexts[i] && batch[..i + 1][i] == batch[i];
        gained := gained + gain;
        assert C.GainedBy(c, batch[..i + 1], nexts[..i + 1], faultNum, self, gained);
        OnDuplicateConfirm(batch[i].seqNo, batch[i].voter, txs[i]);
      }
      assert batch[..|batch|] == batch && nexts[..|nexts|] == nexts;
    }

    /** The requests made of generated transactions. */
    ghost function Requests(txs: seq<seq<Tx>>): seq<Request> {
      seq(|txs|, i requires 0 <= i < |txs| => Request(txs[i], batchTxNum))
    }

    /** What a confirmation is about to add to the pool. */
    ghost function OneGain(seqNo: int, voter: NodeId): seq<Unit>
      reads this`seq2cert, this`issued, this`seqCh, seq2cert.Values
    {
      match C.CertifiedUnit(Certifier(), self, seqNo, voter, faultNum)
      case Some(u) => [u]
      case None => []
    }

    lemma OneGainIs(seqNo: int, voter: NodeId, next: Request)
      ensures var was := C.CertOf(Certs(), seqNo);
              var now := C.CertOf(C.Confirmed(Certifier(), seqNo, voter, faultNum, next).certs, seqNo);
              if !was.duplicated && now.duplicated
              then was.req.Some? && OneGain(seqNo, voter) == [Unit(seqNo, self, was.req.value.txNum)]
              else OneGain(seqNo, voter) == []
    {
      C.ConfirmedGains(Certifier(), self, seqNo, voter, faultNum, next);
    }

    // ---- Execution ----

    /** The requests the server holds. */
    ghost function HeldReqs(): Requests
      reads this`seq2cert, seq2cert.Values
    {
      C.HeldIn(Certs())
    }

    /** The request of a sequence number, if held. Looking it up may leave an empty certificate behind, which
        changes nothing that any step reads. */
    method GetReq(seqNo: int) returns (req: Option<Request>)
      requires CertsValid()
      modifies this`seq2cert
      ensures CertsValid() && HeldReqs() == old(HeldReqs())
      ensures forall s :: C.CertOf(Certs(), s) == C.CertOf(old(Certs()), s)
      ensures req == if seqNo in HeldReqs() then Some(HeldReqs()[seqNo]) else None
      ensures req == if seqNo in old(seq2cert) then old(seq2cert[seqNo].req) else None
    {
      var cert := GetCertOrNew(seqNo);
      req := cert.req;
      LookupChangesNothing(old(Certs()), seqNo);
      assert Certs()[seqNo] == cert.View();
    }

    ghost predicate HasRequest(seqNo: int)
      reads this`seq2cert, seq2cert.Values
    {
      seqNo in seq2cert && seq2cert[seqNo].req.Some?
    }

    lemma HeldIsCertified(reqs: seq<Unit>)
      ensures Present(reqs, HeldReqs()) <==> forall i :: 0 <= i < |reqs| ==> HasRequest(reqs[i].seqNo)
    {
      forall i | 0 <= i < |reqs|
        ensures reqs[i].seqNo in HeldReqs() <==> HasRequest(reqs[i].seqNo)
      {
        C.HeldInIff(Certs(), reqs[i].seqNo);
      }
    }

    /** Whether all requests of a block are held. */
    method CheckPresent(reqs: seq<Unit>) returns (canExec: bool)
      requires CertsValid()
      modifies this`seq2cert
      ensures CertsValid() && HeldReqs() == old(HeldReqs())
      ensures forall s :: C.CertOf(Certs(), s) == C.CertOf(old(Certs()), s)
      ensures canExec <==> Present(reqs, HeldReqs())
      ensures canExec <==> forall i :: 0 <= i < |reqs| ==> old(HasRequest(reqs[i].seqNo))
    {
      HeldIsCertified(reqs);
      canExec := true;
      for i := 0 to |reqs|
        invariant CertsValid() && HeldReqs() == old(HeldReqs())
        invariant forall s :: C.CertOf(Certs(), s) == C.CertOf(old(Certs()), s)
        invariant canExec <==> forall j :: 0 <= j < i ==> reqs[j].seqNo in HeldReqs()
      {
        var req := GetReq(reqs[i].seqNo);
        if req.None? {
          canExec := false;
        }
      }
    }

    /** Runs the requests of a block against the database. */
    method ExecuteReqs(reqs: seq<Unit>)
      requires CertsValid() && Present(reqs, HeldReqs())
      modifies this`seq2cert, db
      ensures CertsValid() && HeldReqs() == old(HeldReqs())
      ensures forall s :: C.CertOf(Certs(), s) == C.CertOf(old(Certs()), s)
      ensures db.kv == ApplyUnits(old(db.kv), reqs, HeldReqs())
      ensures Effects.BlockEffect(old(db.kv), db.kv, reqs, HeldReqs())
    {
      hide CertsValid, C.CertOf, Certs, HeldReqs, Y.BatchEffect, Effects.BlockEffect;
      for i := 0 to |reqs|
        invariant CertsValid() && HeldReqs() == old(HeldReqs())
        invariant forall s :: C.CertOf(Certs(), s) == C.CertOf(old(Certs()), s)
        invariant db.kv == ApplyUnits(old(db.kv), reqs[..i], HeldReqs())
      {
        assert reqs[..i + 1][..i] == reqs[..i];
        var req := GetReq(reqs[i].seqNo);
        var _ := db.ExecTxSet(req.value.txs);
      }
      assert reqs[..|reqs|] == reqs;
      Effects.BlockHasItsEffect(old(db.kv), reqs, HeldReqs());
    }

    /** One height from the channel: executes as long as the next height has been received. */
    method OnHeight(height: int)
      requires BlocksValid() && CertsValid() && !panicked
      modifies this`curExecHeight, this`aheadSet, this`executed, this`panicked, this`seq2cert, db
      ensures CertsValid() && HeldReqs() == old(HeldReqs())
      ensures forall s :: C.CertOf(Certs(), s) == C.CertOf(old(Certs()), s)
      ensures Executor() == Receive(old(Executor()), height, BlockLogs(), HeldReqs())
    {
      hide CertsValid, C.CertOf, HeldReqs, ApplyUnits;
      if height < curExecHeight {
        return;
      }
      aheadSet := aheadSet + {height};
      ghost var start := Executor();
      while curExecHeight in aheadSet && !panicked
        invariant CertsValid() && HeldReqs() == old(HeldReqs())
        invariant forall s :: C.CertOf(Certs(), s) == C.CertOf(old(Certs()), s)
        invariant Drain(Executor(), BlockLogs(), HeldReqs()) == Drain(start, BlockLogs(), HeldReqs())
        decreases |aheadSet|
      {
        TakeNext();
      }
    }

    /** One pass of the inner loop: takes the next height out of the set and executes it if it is decided and
        its requests are held. An undecided height is a panic. */
    method TakeNext()
      requires BlocksValid() && CertsValid() && !panicked && curExecHeight in aheadSet
      modifies this`curExecHeight, this`aheadSet, this`executed, this`panicked, this`seq2cert, db
      ensures CertsValid() && HeldReqs() == old(HeldReqs())
      ensures forall s :: C.CertOf(Certs(), s) == C.CertOf(old(Certs()), s)
      ensures aheadSet == old(aheadSet) - {old(curExecHeight)}
      ensures Drain(Executor(), BlockLogs(), HeldReqs()) == Drain(old(Executor()), BlockLogs(), HeldReqs())
    {
      hide CertsValid, C.CertOf, HeldReqs, ApplyUnits, BlocksValid;
      aheadSet := aheadSet - {curExecHeight};
      if curExecHeight !in height2blockLog {
        panicked := true;
        return;
      }
      var blockLog := height2blockLog[curExecHeight];
      assert BlockLogs()[curExecHeight] == blockLog.View();
      if !blockLog.prepared || !blockLog.committed {
        panicked := true;
        return;
      }
      var canExec := CheckPresent(blockLog.duplicatedReqs);
      if canExec {
        ExecuteReqs(blockLog.duplicatedReqs);
        executed := executed + [Block(curExecHeight, blockLog.duplicatedReqs)];
        curExecHeight := curExecHeight + 1;
      }
    }

    /** Takes one queued height. */
    method ExecuteNext()
      requires BlocksValid() && CertsValid() && !panicked && taken < |execCh|
      modifies this`taken, this`curExecHeight, this`aheadSet, this`executed, this`panicked, this`seq2cert, db
      ensures CertsValid() && HeldReqs() == old(HeldReqs())
      ensures Replica() == P.Took(old(Replica()), HeldReqs())
      ensures Executor() == Receive(old(Executor()), execCh[old(taken)], BlockLogs(), HeldReqs())
      ensures taken == old(taken) + 1
    {
      hide CertsValid, HeldReqs, Receive, BlocksValid;
      OnHeight(execCh[taken]);
      taken := taken + 1;
    }

    /** Takes every queued height in turn; a panic ends the process. */
    method Execute()
      requires BlocksValid() && CertsValid() && !panicked && taken <= |execCh|
      modifies this`taken, this`curExecHeight, this`aheadSet, this`executed, this`panicked, this`seq2cert, db
      ensures CertsValid() && HeldReqs() == old(HeldReqs())
      ensures Executor() == Feed(old(Executor()), execCh[old(taken)..], BlockLogs(), HeldReqs())
      ensures !panicked ==> taken == |execCh|
    {
      hide CertsValid, HeldReqs, Receive, BlocksValid, BlockLogs, Replica, P.Took;
      ghost var start, from, ch := Executor(), taken, execCh;
      Slices(ch, from, from);
      while taken < |execCh| && !panicked
        invariant from <= taken <= |ch| && execCh == ch
        invariant CertsValid() && HeldReqs() == old(HeldReqs())
        invariant Executor() == Feed(start, ch[from..taken], BlockLogs(), HeldReqs())
      {
        Slices(ch, from, taken);
        ExecuteNext();
      }
      Slices(ch, from, taken);
      FeedInParts(start, ch[from..taken], ch[taken..], BlockLogs(), HeldReqs());
      if panicked {
        AbortedStays(Executor(), ch[taken..], BlockLogs(), HeldReqs());
      }
    }
  }

  lemma Slices<T>(s: seq<T>, i: nat, j: nat)
    requires i <= j <= |s|
    ensures s[i..j] + s[j..] == s[i..]
    ensures i == j ==> s[i..j] == []
    ensures j < |s| ==> s[i..j + 1][..j - i] == s[i..j] && s[i..j + 1][j - i] == s[j]
  {
  }

  lemma LookupChangesNothing(certs: C.Certs, seqNo: int)
    ensures var after := certs[seqNo := C.CertOf(certs, seqNo)];
            C.HeldIn(after) == C.HeldIn(certs) && forall s :: C.CertOf(after, s) == C.CertOf(certs, s)
  {
    assert C.HeldIn(certs[seqNo := C.CertOf(certs, seqNo)]).Keys == C.HeldIn(certs).Keys;
  }

  lemma {:induction false} AbortedStays(e: Exec, heights: seq<int>, log: Log, held: Requests)
    requires e.aborted
    ensures Feed(e, heights, log, held) == e
  {
    if heights != [] {
      AbortedStays(e, heights[..|heights| - 1], log, held);
    }
  }

  lemma {:induction false} FeedInParts(e: Exec, a: seq<int>, b: seq<int>, log: Log, held: Requests)
    ensures Feed(e, a + b, log, held) == Feed(Feed(e, a, log, held), b, log, held)
  {
    if b == [] {
      assert a + b == a;
    } else {
      assert (a + b)[..|a + b| - 1] == a + b[..|b| - 1];
      FeedInParts(e, a, b[..|b| - 1], log, held);
    }
  }

  function Pushed(c: C.Certifier, seqNo: int, voter: NodeId): C.Certifier {
    var cert := C.CertOf(c.certs, seqNo);
    c.(certs := c.certs[seqNo := cert.(queue := cert.queue + [voter])])
  }

  /** Handling a confirmation is queueing it and, before certification, counting the queue. */
  lemma ConfirmedInParts(c: C.Certifier, seqNo: int, voter: NodeId, f: nat, next: Request)
    ensures var pushed := Pushed(c, seqNo, voter);
            var counted := C.Counted(pushed.certs[seqNo], f);
            var c' := pushed.(certs := pushed.certs[seqNo := counted]);
            && pushed.certs[seqNo].req == C.CertOf(c.certs, seqNo).req
            && pushed.certs[seqNo].duplicated == C.CertOf(c.certs, seqNo).duplicated
            && (pushed.certs[seqNo].duplicated
                ==> C.Confirmed(c, seqNo, voter, f, next) == pushed && !C.Certifies(c, seqNo, voter, f))
            && (!pushed.certs[seqNo].duplicated
                ==> && (C.Certifies(c, seqNo, voter, f) <==> counted.duplicated)
                    && (counted.duplicated ==> pushed.certs[seqNo].req.Some?)
                    && C.Confirmed(c, seqNo, voter, f, next) == if counted.duplicated then C.Issued(c', next) else c')
  {
    hide C.Issued;
    var pushed := Pushed(c, seqNo, voter);
    var counted := C.Counted(pushed.certs[seqNo], f);
    assert pushed.certs[seqNo := counted] == c.certs[seqNo := counted];
  }
}
