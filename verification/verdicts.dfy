/**
  The classifier's verdicts and what the engine does with them once every
  move has one: the generic reply scan, the `+`/`#` marks, and the removal of
  illegal moves and of origins left without moves. Nothing here looks at a
  board; the verdicts arrive as a map parallel to the move map.
 */
module Verdicts {

  /** The classifier's verdict; the engine stores these as the codes 0, 1, 2 and 3. */
  datatype Tag = Quiet | Illegal | Check | Mate

  // ---------------------------------------------------------------- the reply scan

  /**
    `TwoMoveScan`: the origins of the reply map `rs` that have at least one
    reply passing `safe`, each with its whole list of replies.
   */
  function TwoMoveScan(rs: map<string, seq<string>>, safe: (string, string) -> bool): (r: map<string, seq<string>>)
    ensures forall o :: o in r <==> o in rs && exists m :: m in rs[o] && safe(o, m)
    ensures forall o :: o in r ==> r[o] == rs[o]
  {
    map o | o in rs && (exists m :: m in rs[o] && safe(o, m)) :: rs[o]
  }

  /** No reply in `rs` passes `safe`. */
  ghost predicate NoneSafe(rs: map<string, seq<string>>, safe: (string, string) -> bool) {
    forall o, m :: o in rs && m in rs[o] ==> !safe(o, m)
  }

  /** The scan comes back empty exactly when no reply at all passes the test. */
  lemma TwoMoveScanEmptyIff(rs: map<string, seq<string>>, safe: (string, string) -> bool)
    ensures |TwoMoveScan(rs, safe)| == 0 <==> NoneSafe(rs, safe)
  {
    var r := TwoMoveScan(rs, safe);
    if |r| != 0 {
      var o :| o in r;
    } else {
      forall o, m | o in rs && m in rs[o]
        ensures !safe(o, m)
      {
        assert o !in r;
      }
    }
  }

  /**
    The shape of a verdict, over any reply map and any reply test: quiet
    without an attack on the king, otherwise mate when nothing passes the test
    and check when something does.
   */
  lemma VerdictShape(t: Tag, attacked: bool, rs: map<string, seq<string>>, safe: (string, string) -> bool)
    requires t == if !attacked then Quiet else if |TwoMoveScan(rs, safe)| == 0 then Mate else Check
    ensures t == Quiet <==> !attacked
    ensures t == Mate <==> attacked && NoneSafe(rs, safe)
    ensures t == Check <==> attacked && !NoneSafe(rs, safe)
  {
    TwoMoveScanEmptyIff(rs, safe);
  }

  // ---------------------------------------------------------------- marks and removal

  /** A move as it is listed after the marking passes: `+` for check, `#` for mate. */
  function Annotate(m: string, t: Tag): string {
    match t
    case Check => m + "+"
    case Mate => m + "#"
    case _ => m
  }

  predicate IsMark(ch: char) {
    ch == '+' || ch == '#'
  }

  /**
    A move that does not already end in a mark ends in `+` after annotation
    exactly when it gives check, in `#` exactly when it mates, so never both,
    and is otherwise unchanged.
   */
  lemma AnnotateMarks(m: string, t: Tag)
    requires |m| > 0 && !IsMark(m[|m| - 1])
    ensures var a := Annotate(m, t);
      |a| > 0 && a[..|m|] == m
      && (a[|a| - 1] == '+' <==> t == Check)
      && (a[|a| - 1] == '#' <==> t == Mate)
      && (a == m <==> t == Quiet || t == Illegal)
  {
  }

  /** Every origin of the move map has a verdict per move. */
  predicate Aligned(mm: map<string, seq<string>>, res: map<string, seq<Tag>>) {
    forall o :: o in mm ==> o in res && |res[o]| == |mm[o]|
  }

  /** One marking pass over one origin's list: the moves tagged `t` gain `suffix`. */
  function Mark(ms: seq<string>, ts: seq<Tag>, t: Tag, suffix: char): (r: seq<string>)
    requires |ts| == |ms|
    ensures |r| == |ms|
  {
    seq(|ms|, i requires 0 <= i < |ms| => if ts[i] == t then ms[i] + [suffix] else ms[i])
  }

  /** `scanForChecks`: every move tagged check gains a `+`. */
  function ScanForChecks(mm: map<string, seq<string>>, res: map<string, seq<Tag>>): (r: map<string, seq<string>>)
    requires Aligned(mm, res)
    ensures r.Keys == mm.Keys && Aligned(r, res)
  {
    map o | o in mm :: Mark(mm[o], res[o], Check, '+')
  }

  /** `scanForCheckmates`: every move tagged mate gains a `#`. */
  function ScanForCheckmates(mm: map<string, seq<string>>, res: map<string, seq<Tag>>): (r: map<string, seq<string>>)
    requires Aligned(mm, res)
    ensures r.Keys == mm.Keys && Aligned(r, res)
  {
    map o | o in mm :: Mark(mm[o], res[o], Mate, '#')
  }

  /** The two marking passes together annotate each move with its own verdict. */
  lemma MarkBoth(ms: seq<string>, ts: seq<Tag>, i: int)
    requires |ts| == |ms| && 0 <= i < |ms|
    ensures Mark(Mark(ms, ts, Check, '+'), ts, Mate, '#')[i] == Annotate(ms[i], ts[i])
  {
  }

  /** The moves of one origin whose verdict is not illegal, in their order. */
  function DropIllegal(ms: seq<string>, ts: seq<Tag>): (r: seq<string>)
    requires |ts| == |ms|
    ensures |r| <= |ms|
  {
    if |ms| == 0 then []
    else (if ts[0] == Illegal then [] else [ms[0]]) + DropIllegal(ms[1..], ts[1..])
  }

  /** A move survives exactly when it stands in the list with a verdict other than illegal. */
  lemma {:induction false} DropIllegalIff(ms: seq<string>, ts: seq<Tag>, x: string)
    requires |ts| == |ms|
    ensures x in DropIllegal(ms, ts) <==> exists i :: 0 <= i < |ms| && ts[i] != Illegal && ms[i] == x
    decreases |ms|
  {
    if |ms| > 0 {
      DropIllegalIff(ms[1..], ts[1..], x);
      if x in DropIllegal(ms[1..], ts[1..]) {
        var i :| 0 <= i < |ms[1..]| && ts[1..][i] != Illegal && ms[1..][i] == x;
        assert ts[i + 1] != Illegal && ms[i + 1] == x;
      }
      if exists i :: 0 <= i < |ms| && ts[i] != Illegal && ms[i] == x {
        var i :| 0 <= i < |ms| && ts[i] != Illegal && ms[i] == x;
        if i > 0 {
          assert ts[1..][i - 1] != Illegal && ms[1..][i - 1] == x;
        }
      }
    }
  }

  /** The list empties exactly when every verdict in it is illegal. */
  lemma {:induction false} DropIllegalEmpty(ms: seq<string>, ts: seq<Tag>)
    requires |ts| == |ms|
    ensures |DropIllegal(ms, ts)| == 0 <==> forall i :: 0 <= i < |ts| ==> ts[i] == Illegal
    decreases |ms|
  {
    if |ms| > 0 {
      DropIllegalEmpty(ms[1..], ts[1..]);
      assert forall i :: 1 <= i < |ts| ==> ts[i] == ts[1..][i - 1];
    }
  }

  /**
    `filterIllegalMoves`: the illegal moves are removed from every list and
    the origins left with an empty list are removed from the map.
   */
  function FilterIllegalMoves(mm: map<string, seq<string>>, res: map<string, seq<Tag>>): (r: map<string, seq<string>>)
    requires Aligned(mm, res)
    ensures forall o :: o in r ==> o in mm && |r[o]| > 0
  {
    map o | o in mm && |DropIllegal(mm[o], res[o])| > 0 :: DropIllegal(mm[o], res[o])
  }

  /** The three passes in the engine's order: checks, then mates, then removal. */
  function Finalize(mm: map<string, seq<string>>, res: map<string, seq<Tag>>): map<string, seq<string>>
    requires Aligned(mm, res)
  {
    FilterIllegalMoves(ScanForCheckmates(ScanForChecks(mm, res), res), res)
  }

  /**
    After the three passes an origin is still listed exactly when one of its
    moves is not illegal, and its list holds exactly those moves, each
    annotated with its verdict.
   */
  lemma FinalizeIff(mm: map<string, seq<string>>, res: map<string, seq<Tag>>, o: string, x: string)
    requires Aligned(mm, res)
    ensures o in Finalize(mm, res) <==> o in mm && exists i :: 0 <= i < |mm[o]| && res[o][i] != Illegal
    ensures o in Finalize(mm, res) ==>
      (x in Finalize(mm, res)[o] <==>
       exists i :: 0 <= i < |mm[o]| && res[o][i] != Illegal && x == Annotate(mm[o][i], res[o][i]))
  {
    if o in mm {
      var ms, ts := mm[o], res[o];
      var marked := ScanForCheckmates(ScanForChecks(mm, res), res)[o];
      assert marked == Mark(Mark(ms, ts, Check, '+'), ts, Mate, '#');
      forall i | 0 <= i < |ms|
        ensures marked[i] == Annotate(ms[i], ts[i])
      {
        MarkBoth(ms, ts, i);
      }
      DropIllegalEmpty(marked, ts);
      DropIllegalIff(marked, ts, x);
    }
  }

  /** `FinalizeIff` with the verdicts given by a function of origin and move. */
  lemma FinalizeByTag(mm: map<string, seq<string>>, res: map<string, seq<Tag>>, tag: (string, string) -> Tag, o: string, x: string)
    requires Aligned(mm, res)
    requires forall o', i :: o' in mm && 0 <= i < |mm[o']| ==> res[o'][i] == tag(o', mm[o'][i])
    ensures o in Finalize(mm, res) <==> o in mm && exists m :: m in mm[o] && tag(o, m) != Illegal
    ensures o in Finalize(mm, res) ==>
      (x in Finalize(mm, res)[o] <==> exists m :: m in mm[o] && tag(o, m) != Illegal && x == Annotate(m, tag(o, m)))
  {
    FinalizeIff(mm, res, o, x);
    if o in mm {
      var ms, ts := mm[o], res[o];
      if exists m :: m in ms && tag(o, m) != Illegal {
        var m :| m in ms && tag(o, m) != Illegal;
        var i :| 0 <= i < |ms| && ms[i] == m;
        assert ts[i] != Illegal;
      }
      if exists m :: m in ms && tag(o, m) != Illegal && x == Annotate(m, tag(o, m)) {
        var m :| m in ms && tag(o, m) != Illegal && x == Annotate(m, tag(o, m));
        var i :| 0 <= i < |ms| && ms[i] == m;
        assert ts[i] != Illegal && x == Annotate(ms[i], ts[i]);
      }
    }
  }
}
