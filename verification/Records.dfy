/** The mutable records a server keeps: one per block height and one per sequence number. */
module Records {
  import opened Types
  import C = Certification
  import P = Pipeline

  class BlockLog {
    const blockIndex: int
    var duplicatedReqs: seq<Unit>
    var txNum: int
    var prepareConfirmNodes: seq<NodeId>
    var commitConfirmNodes: seq<NodeId>
    var prepared: bool
    var committed: bool
    var executed: bool

    constructor (blockIndex: int, duplicatedReqs: seq<Unit>, txNum: int, prepared: bool, committed: bool)
      ensures this.blockIndex == blockIndex && this.txNum == txNum
      ensures View() == P.EMPTY_ENTRY.(reqs := duplicatedReqs, prepared := prepared, committed := committed)
    {
      this.blockIndex, this.duplicatedReqs, this.txNum := blockIndex, duplicatedReqs, txNum;
      this.prepareConfirmNodes, this.commitConfirmNodes := [], [];
      this.prepared, this.committed, this.executed := prepared, committed, false;
    }

    ghost function View(): Entry
      reads this
    {
      Entry(duplicatedReqs, prepareConfirmNodes, commitConfirmNodes, prepared, committed, executed)
    }

    /** Sets the flags whose confirmation count has reached the fault number. */
    method Check(faultNum: nat)
      modifies this
      ensures View() == P.Checked(old(View()), faultNum)
    {
      if |prepareConfirmNodes| >= faultNum {
        prepared := true;
      }
      if |commitConfirmNodes| >= faultNum {
        committed := true;
      }
    }
  }

  datatype Stage = InitialStage | DuplicatedStage

  class LogCert {
    const seqNo: int
    var duplicator: NodeId
    var req: Option<Request>
    var duplicateConfirmQ: seq<NodeId>
    var duplicateConfirms: map<NodeId, bool>
    var stage: Stage

    constructor (seqNo: int)
      ensures this.seqNo == seqNo && View() == C.NEW_CERT
    {
      this.seqNo := seqNo;
      duplicator, req, duplicateConfirmQ, duplicateConfirms, stage := 0, None, [], map[], InitialStage;
    }

    ghost function View(): C.Cert
      reads this
    {
      C.Cert(req, duplicateConfirmQ, duplicateConfirms.Keys, stage == DuplicatedStage)
    }

    method Set(req: Option<Request>, duplicator: NodeId)
      modifies this
      ensures View() == old(View()).(req := req) && this.duplicator == duplicator
    {
      this.req, this.duplicator := req, duplicator;
    }

    method PushDuplicateConfirm(voter: NodeId)
      modifies this
      ensures View() == old(View()).(queue := old(View()).queue + [voter]) && duplicator == old(duplicator)
    {
      duplicateConfirmQ := duplicateConfirmQ + [voter];
    }

    method PopAllDuplicateConfirms() returns (queue: seq<NodeId>)
      modifies this
      ensures queue == old(View()).queue
      ensures View() == old(View()).(queue := []) && duplicator == old(duplicator)
    {
      queue := duplicateConfirmQ;
      duplicateConfirmQ := [];
    }

    method DuplicateConfirmVoted(voter: NodeId) returns (voted: bool)
      ensures voted <==> voter in View().votes
    {
      voted := voter in duplicateConfirms;
    }

    method DuplicateConfirmVote(voter: NodeId)
      modifies this
      ensures View() == old(View()).(votes := old(View()).votes + {voter}) && duplicator == old(duplicator)
    {
      duplicateConfirms := duplicateConfirms[voter := true];
    }

    method DuplicateConfirmBallot() returns (count: nat)
      ensures count == |View().votes|
    {
      count := |duplicateConfirms|;
      assert |duplicateConfirms.Keys| == |duplicateConfirms|;
    }

    method SetStage(stage: Stage)
      modifies this
      ensures View() == old(View()).(duplicated := stage == DuplicatedStage) && duplicator == old(duplicator)
    {
      this.stage := stage;
    }

    /** Takes all queued confirmations and counts each voter once. */
    method CountConfirms()
      requires req.Some?
      modifies this
      ensures View() == old(View()).(queue := [], votes := old(View()).votes + C.Elements(old(View()).queue))
      ensures duplicator == old(duplicator)
    {
      var queue := PopAllDuplicateConfirms();
      for i := 0 to |queue|
        invariant View() == old(View()).(queue := [], votes := old(View()).votes + C.Elements(queue[..i]))
        invariant duplicator == old(duplicator)
      {
        assert queue[..i + 1] == queue[..i] + [queue[i]];
        assert C.Elements(queue[..i + 1]) == C.Elements(queue[..i]) + {queue[i]};
        var voted := DuplicateConfirmVoted(queue[i]);
        if !voted {
          DuplicateConfirmVote(queue[i]);
        }
      }
      assert queue[..|queue|] == queue;
    }
  }
}
