/** Node ids and sequence numbers. */
module SeqNums {
  import opened Types

  const SEQ_STEP: int := 10_000_000_000
  const MAX_INT64: int := 0x7FFF_FFFF_FFFF_FFFF

  /** A parsed address part; `None` stands for text that is not a number. */
  type Span = Option<int>

  /** The base-1000 number formed by address parts; `None` when one of them is not a number. */
  function Prefix(spans: seq<Span>): Option<int> {
    if spans == [] then Some(0)
    else
      var init, last := Prefix(spans[..|spans| - 1]), spans[|spans| - 1];
      if init.Some? && last.Some? then Some(init.value * 1000 + last.value) else None
  }

  function IdOf(ip: seq<Span>, port: nat): Option<int>
    requires |ip| >= 2
  {
    var prefix := Prefix(ip[2..]);
    if prefix.Some? then Some(prefix.value * 100 + port % 100) else None
  }

  lemma {:induction false} BadSpanSpoils(spans: seq<Span>, i: nat)
    requires i < |spans| && spans[i].None?
    ensures Prefix(spans).None?
  {
    if i < |spans| - 1 {
      BadSpanSpoils(spans[..|spans| - 1], i);
    }
  }

  lemma {:induction false} GoodSpansAdd(spans: seq<Span>)
    requires forall i :: 0 <= i < |spans| ==> spans[i].Some?
    ensures Prefix(spans).Some?
  {
    if spans != [] {
      GoodSpansAdd(spans[..|spans| - 1]);
    }
  }

  /** An address has an id exactly when all parts after the second are numbers; the port makes its last two digits. */
  lemma IdExistsIff(ip: seq<Span>, port: nat)
    requires |ip| >= 2
    ensures IdOf(ip, port).Some? <==> forall i :: 2 <= i < |ip| ==> ip[i].Some?
    ensures IdOf(ip, port).Some? ==> IdOf(ip, port).value % 100 == port % 100
                                     && Prefix(ip[2..]) == Some(IdOf(ip, port).value / 100)
  {
    if forall i :: 2 <= i < |ip| ==> ip[i].Some? {
      GoodSpansAdd(ip[2..]);
    } else {
      var i :| 2 <= i < |ip| && ip[i].None?;
      BadSpanSpoils(ip[2..], i - 2);
    }
  }

  /** The id of an address; `None` is the panic on a part that is not a number. Ports are not negative. */
  method GetId(ip: seq<Span>, port: nat) returns (id: Option<int>)
    requires |ip| >= 2
    ensures id == IdOf(ip, port)
  {
    var prefix := 0;
    for i := 2 to |ip|
      invariant Prefix(ip[2..i]) == Some(prefix)
    {
      if ip[i].None? {
        BadSpanSpoils(ip[2..], i - 2);
        return None;
      }
      prefix := prefix * 1000 + ip[i].value;
      assert ip[2..i + 1][..i - 2] == ip[2..i];
    }
    assert ip[2..|ip|] == ip[2..];
    id := Some(prefix * 100 + port % 100);
  }

  predicate Octet(s: Span) {
    s.Some? && 0 <= s.value < 256
  }

  /** For dotted addresses the id is below 10^8 and determines the last two octets and the port's last two digits. */
  lemma IdsAreUnique(a: seq<Span>, b: seq<Span>, p: nat, q: nat)
    requires |a| == |b| == 4 && Octet(a[2]) && Octet(a[3]) && Octet(b[2]) && Octet(b[3])
    ensures IdOf(a, p).Some? && IdRange(IdOf(a, p).value)
    ensures IdOf(a, p) == IdOf(b, q) <==> a[2] == b[2] && a[3] == b[3] && p % 100 == q % 100
  {
    IdOfOctets(a, p);
    IdOfOctets(b, q);
  }

  lemma IdOfOctets(ip: seq<Span>, port: nat)
    requires |ip| == 4 && Octet(ip[2]) && Octet(ip[3])
    ensures IdOf(ip, port) == Some((ip[2].value * 1000 + ip[3].value) * 100 + port % 100)
  {
    assert ip[2..][..1] == [ip[2]];
    assert [ip[2]][..0] == [];
    assert Prefix([ip[2]]) == Some(ip[2].value);
  }

  function Thousands(n: nat): nat {
    if n == 0 then 1 else 1000 * Thousands(n - 1)
  }

  /** However many parts there are, each weighs a thousand times the next. */
  lemma {:induction false} FirstPartWeighs(x: int, rest: seq<Span>)
    ensures Prefix(rest).Some? <==> Prefix([Some(x)] + rest).Some?
    ensures Prefix(rest).Some? ==> Prefix([Some(x)] + rest).value == x * Thousands(|rest|) + Prefix(rest).value
  {
    if rest == [] {
      assert [Some(x)] + rest == [Some(x)] && [Some(x)][..0] == [];
      assert Prefix([Some(x)]) == Some(x);
    } else {
      var all, init := [Some(x)] + rest, rest[..|rest| - 1];
      assert all[..|all| - 1] == [Some(x)] + init && all[|all| - 1] == rest[|rest| - 1];
      FirstPartWeighs(x, init);
      assert x * Thousands(|rest|) == 1000 * (x * Thousands(|init|));
    }
  }

  /** The `j`-th sequence number a node assigns; its counter starts at the node's id. */
  function SeqOf(id: int, j: nat): int {
    id + j * SEQ_STEP
  }

  predicate IdRange(id: int) {
    0 <= id < 100_000_000
  }

  /** Sequence numbers never collide across nodes or calls, and both parts can be read back. */
  lemma SeqNumbersAreUnique(a: int, i: nat, b: int, j: nat)
    requires IdRange(a) && IdRange(b)
    ensures SeqOf(a, i) == SeqOf(b, j) <==> a == b && i == j
    ensures SeqOf(a, i) % SEQ_STEP == a && SeqOf(a, i) / SEQ_STEP == i
  {
  }

  /** In decimal the last eight digits of a sequence number are the node's id, and what stands before the last ten
      is the number of the call. */
  lemma LastDigitsAreTheNode(id: int, j: nat)
    requires IdRange(id)
    ensures SeqOf(id, j) % 100_000_000 == id && SeqOf(id, j) % 10_000_000_000 == id
    ensures SeqOf(id, j) / 10_000_000_000 == j
  {
    SeqNumbersAreUnique(id, j, id, j);
    EightDigits(100 * j, id);
    assert SeqOf(id, j) == id + 100_000_000 * (100 * j);
  }

  lemma EightDigits(q: nat, r: int)
    requires IdRange(r)
    ensures (r + 100_000_000 * q) % 100_000_000 == r
  {
  }

  /** The 64-bit counter holds exactly the first 922,337,203 assignments, whatever the node. */
  lemma SeqNumbersFit(id: int, j: nat)
    requires IdRange(id)
    ensures SeqOf(id, j) <= MAX_INT64 <==> j <= 922_337_203
  {
  }
}
