/**
  The pull protocol of physical expression operators, shown on the boolean
  `POOr`. Pulling an operator yields a `Result` envelope: a status and, when
  the status is OK, a boolean payload.

  An operand is either a stand-in source, which yields a fixed result when
  pulled, or another `POOr`, so that the short-circuit behaviour of whole
  OR trees can be stated. Every pull records which sources were pulled, in
  order; a source that is never pulled is never evaluated.
 */
module POOr {
  import opened Sequences

  /** `POStatus`: the in-band status of one pull. */
  datatype Status = StatusOk | StatusNull | StatusError | StatusEop

  /** The `result` field of a `Result`: Java's `null` or a `Boolean`. */
  datatype Payload = NullPayload | BoolPayload(b: bool)

  datatype Result = Result(returnStatus: Status, result: Payload)

  /** An OK result of a boolean expression carries a boolean. */
  predicate WellTyped(r: Result) {
    r.returnStatus == StatusOk ==> r.result.BoolPayload?
  }

  /** An operand that yields `out` when pulled. */
  datatype Source = Source(id: nat, out: Result)

  datatype Expr = Leaf(src: Source) | Or(lhs: Expr, rhs: Expr)

  /** The result of one `getNext` and the sources it pulled, in order. */
  datatype Pull = Pull(res: Result, pulled: seq<nat>)

  /** The sources of an OR tree, left to right. */
  function Sources(e: Expr): (ss: seq<Source>)
    ensures |ss| > 0
  {
    match e
    case Leaf(src) => [src]
    case Or(lhs, rhs) => Sources(lhs) + Sources(rhs)
  }

  function Ids(ss: seq<Source>): (ids: seq<nat>)
    ensures |ids| == |ss|
  {
    if |ss| == 0 then [] else [ss[0].id] + Ids(ss[1..])
  }

  predicate WellTypedSources(ss: seq<Source>) {
    forall i :: 0 <= i < |ss| ==> WellTyped(ss[i].out)
  }

  /** Stops an OR evaluation: a non-OK status, or the value true. */
  predicate Decisive(r: Result) {
    r.returnStatus != StatusOk || r.result == BoolPayload(true)
  }

  /**
    `getNext` of an OR tree: pull the left operand; propagate a non-OK
    result unchanged; short-circuit on true; otherwise pull the right
    operand, propagate its non-OK result unchanged, and else answer OK with
    `left || right` in the right operand's envelope.

    The answer is well typed, and at least one source and at most all of
    them are pulled; `GetNextPullsPrefix` says which.
   */
  function GetNext(e: Expr): (p: Pull)
    requires WellTypedSources(Sources(e))
    ensures WellTyped(p.res)
    ensures 0 < |p.pulled| <= |Sources(e)|
  {
    match e
    case Leaf(src) =>
      assert Sources(e)[0] == src;
      Pull(src.out, [src.id])
    case Or(lhs, rhs) =>
      WellTypedSplit(Sources(lhs), Sources(rhs));
      var left := GetNext(lhs);
      if left.res.returnStatus != StatusOk then left
      else if left.res.result.b then left
      else
        var right := GetNext(rhs);
        if right.res.returnStatus != StatusOk then Pull(right.res, left.pulled + right.pulled)
        else
          var res := right.res.(result := BoolPayload(left.res.result.b || right.res.result.b));
          Pull(res, left.pulled + right.pulled)
  }

  lemma WellTypedSplit(a: seq<Source>, b: seq<Source>)
    requires WellTypedSources(a + b)
    ensures WellTypedSources(a) && WellTypedSources(b)
  {
    forall i | 0 <= i < |a| ensures WellTyped(a[i].out) {
      assert (a + b)[i] == a[i];
    }
    forall i | 0 <= i < |b| ensures WellTyped(b[i].out) {
      assert (a + b)[|a| + i] == b[i];
    }
  }

  lemma {:induction false} IdsAppend(a: seq<Source>, b: seq<Source>)
    ensures Ids(a + b) == Ids(a) + Ids(b)
    decreases |a|
  {
    if |a| == 0 {
      assert a + b == b;
    } else {
      assert (a + b)[0] == a[0];
      assert (a + b)[1..] == a[1..] + b;
      IdsAppend(a[1..], b);
    }
  }

  // ---------------------------------------------------------------------
  // The single operator: the cases of `getNext`
  // ---------------------------------------------------------------------

  /**
    One `POOr` over two operands: a non-OK or true left result is returned
    as it is and the right operand is never pulled; otherwise the right is
    pulled once, its non-OK result is returned as it is, and an OK right
    result is returned with payload `left || right`, which is the right
    value itself.
   */
  lemma OrCases(lhs: Expr, rhs: Expr)
    requires WellTypedSources(Sources(Or(lhs, rhs)))
    ensures WellTypedSources(Sources(lhs)) && WellTypedSources(Sources(rhs))
    ensures var p := GetNext(Or(lhs, rhs));
            var l := GetNext(lhs);
            var r := GetNext(rhs);
            && (l.res.returnStatus != StatusOk ==> p == l)
            && (l.res == Result(StatusOk, BoolPayload(true)) ==> p == l)
            && (l.res == Result(StatusOk, BoolPayload(false)) && r.res.returnStatus != StatusOk ==>
                  p == Pull(r.res, l.pulled + r.pulled))
            && (l.res == Result(StatusOk, BoolPayload(false)) && r.res.returnStatus == StatusOk ==>
                  p == Pull(r.res, l.pulled + r.pulled)
                  && p.res.result == BoolPayload(l.res.result.b || r.res.result.b))
  {
    WellTypedSplit(Sources(lhs), Sources(rhs));
  }

  /**
    The answer is OK iff the left is OK and either true or followed by an
    OK right; when OK, its value is true iff one of the pulled operands was
    true. The left operand is pulled exactly once, the right at most once.
   */
  lemma OrStatusAndValue(a: Source, b: Source)
    requires WellTyped(a.out) && WellTyped(b.out)
    ensures var p := GetNext(Or(Leaf(a), Leaf(b)));
            && (p.res.returnStatus == StatusOk
                <==> a.out.returnStatus == StatusOk
                     && (a.out.result.b || b.out.returnStatus == StatusOk))
            && (p.res.returnStatus == StatusOk ==>
                  (p.res.result.b <==> a.out.result.b
                                       || (!a.out.result.b && b.out.result.b)))
            && (p.pulled == [a.id] || p.pulled == [a.id, b.id])
            && (p.pulled == [a.id] <==> Decisive(a.out))
  {
    var e := Or(Leaf(a), Leaf(b));
    assert Sources(e) == [a, b];
  }

  // ---------------------------------------------------------------------
  // Reference: an OR tree is a left-to-right short-circuit scan
  // ---------------------------------------------------------------------

  /**
    Pull the sources one by one, left to right, stopping at the first
    decisive result or after the last source; answer the last result
    pulled.
   */
  function Scan(ss: seq<Source>): (p: Pull)
    requires |ss| > 0
    ensures 0 < |p.pulled| <= |ss|
    ensures p.pulled[0] == ss[0].id
  {
    if Decisive(ss[0].out) || |ss| == 1 then Pull(ss[0].out, [ss[0].id])
    else
      var rest := Scan(ss[1..]);
      Pull(rest.res, [ss[0].id] + rest.pulled)
  }

  /** The position of the source that decides a scan: the first decisive one, else the last. */
  function Decider(ss: seq<Source>): (k: nat)
    requires |ss| > 0
    ensures k < |ss|
    ensures Decisive(ss[k].out) || k == |ss| - 1
  {
    if Decisive(ss[0].out) || |ss| == 1 then 0 else 1 + Decider(ss[1..])
  }

  /** No source before the decider is decisive, so the decider is the first decisive source. */
  lemma {:induction false} DeciderIsFirst(ss: seq<Source>)
    requires |ss| > 0
    ensures forall j :: 0 <= j < Decider(ss) ==> !Decisive(ss[j].out)
    decreases |ss|
  {
    if !Decisive(ss[0].out) && |ss| > 1 {
      DeciderIsFirst(ss[1..]);
      forall j | 1 <= j < Decider(ss) ensures !Decisive(ss[j].out) {
        assert ss[j] == ss[1..][j - 1];
      }
    }
  }

  /** A scan pulls exactly the sources up to and including the decider, and answers the decider's result. */
  lemma {:induction false} ScanStopsAtDecider(ss: seq<Source>)
    requires |ss| > 0
    ensures Scan(ss) == Pull(ss[Decider(ss)].out, Ids(ss[..Decider(ss) + 1]))
    decreases |ss|
  {
    if Decisive(ss[0].out) || |ss| == 1 {
      assert ss[..1][1..] == [];
    } else {
      var k := Decider(ss[1..]);
      ScanStopsAtDecider(ss[1..]);
      assert ss[1..][k] == ss[k + 1];
      assert ss[..k + 2][1..] == ss[1..][..k + 1];
      assert ss[..k + 2][0] == ss[0];
    }
  }

  /**
    Scanning `a + b`: a scan of `a` that ends decisively is the whole
    answer; otherwise it has pulled all of `a`, and the scan of `b` follows.
   */
  lemma {:induction false} ScanAppend(a: seq<Source>, b: seq<Source>)
    requires |a| > 0 && |b| > 0
    ensures Decisive(Scan(a).res) ==> Scan(a + b) == Scan(a)
    ensures !Decisive(Scan(a).res) ==>
              Scan(a + b) == Pull(Scan(b).res, Scan(a).pulled + Scan(b).pulled)
    decreases |a|
  {
    assert (a + b)[0] == a[0];
    if !Decisive(a[0].out) {
      if |a| == 1 {
        assert (a + b)[1..] == b;
      } else {
        assert (a + b)[1..] == a[1..] + b;
        ScanAppend(a[1..], b);
        AppendAssoc([a[0].id], Scan(a[1..]).pulled, Scan(b).pulled);
      }
    }
  }

  /** Pulling an OR tree is scanning its sources. */
  lemma {:induction false} GetNextIsScan(e: Expr)
    requires WellTypedSources(Sources(e))
    ensures GetNext(e) == Scan(Sources(e))
  {
    match e
    case Leaf(src) =>
    case Or(lhs, rhs) =>
      var a, b := Sources(lhs), Sources(rhs);
      OrCases(lhs, rhs);
      GetNextIsScan(lhs);
      GetNextIsScan(rhs);
      ScanAppend(a, b);
      var l := GetNext(lhs);
      if !Decisive(l.res) {
        assert l.res == Result(StatusOk, BoolPayload(false));
      }
  }

  /**
    Pulling an OR tree pulls its sources left to right up to the first one
    that is not OK or true, or all of them, and answers exactly the result
    of the last one pulled.
   */
  lemma GetNextStopsAtDecider(e: Expr)
    requires WellTypedSources(Sources(e))
    ensures var ss := Sources(e);
            var k := Decider(ss);
            && (forall j :: 0 <= j < k ==> !Decisive(ss[j].out))
            && GetNext(e) == Pull(ss[k].out, Ids(ss[..k + 1]))
  {
    GetNextIsScan(e);
    ScanStopsAtDecider(Sources(e));
    DeciderIsFirst(Sources(e));
  }

  /**
    The sources pulled are always a prefix of the tree's sources, and an
    answer that is OK and false has pulled all of them.
   */
  lemma GetNextPullsPrefix(e: Expr)
    requires WellTypedSources(Sources(e))
    ensures GetNext(e).pulled <= Ids(Sources(e))
    ensures !Decisive(GetNext(e).res) ==> GetNext(e).pulled == Ids(Sources(e))
  {
    var ss := Sources(e);
    var k := Decider(ss);
    GetNextIsScan(e);
    ScanStopsAtDecider(ss);
    IdsAppend(ss[..k + 1], ss[k + 1..]);
    assert ss[..k + 1] + ss[k + 1..] == ss;
    if !Decisive(ss[k].out) {
      assert ss[..k + 1] == ss;
    }
  }

  /** How the operands are grouped does not matter: `(a || b) || c` and `a || (b || c)` pull and answer alike. */
  lemma OrIsAssociative(a: Expr, b: Expr, c: Expr)
    requires WellTypedSources(Sources(Or(Or(a, b), c)))
    ensures WellTypedSources(Sources(Or(a, Or(b, c))))
    ensures GetNext(Or(Or(a, b), c)) == GetNext(Or(a, Or(b, c)))
  {
    AppendAssoc(Sources(a), Sources(b), Sources(c));
    GetNextIsScan(Or(Or(a, b), c));
    GetNextIsScan(Or(a, Or(b, c)));
  }
}
