/**
  Pawn promotion in the move lists: a move that reaches the last rank is
  replaced by its four promotion variants, and the board write that turns the
  arrived pawn into the chosen piece.
 */
module Promotions {
  import opened Squares
  import opened Board

  /** `islower` in the C locale. */
  predicate IsLower(ch: char) {
    'a' <= ch <= 'z'
  }

  /** The rank digit a colour's pawns promote on. */
  function PromotionRank(c: Color): char {
    if c == White then '8' else '1'
  }

  /**
    The engine's test for a pawn move that promotes: it ends in the promotion
    rank digit and every character before that is lower case (pawn moves are
    the only ones that start with a file letter).
   */
  predicate IsPromotionMove(m: string, c: Color) {
    |m| > 0 && m[|m| - 1] == PromotionRank(c) && forall i :: 0 <= i < |m| - 1 ==> IsLower(m[i])
  }

  /** The four variants `addPawnPromotionMoves` appends, queen first. */
  function Expansions(m: string): (r: seq<string>)
    ensures |r| == 4
    ensures forall x :: x in r ==> |x| == |m| + 2 && x[..|m|] == m && x[|m|] == '=' && IsPromotionLetter(x[|m| + 1])
  {
    [m + "=Q", m + "=R", m + "=N", m + "=B"]
  }

  /** No promotion variant is itself taken for a promotion move. */
  lemma ExpansionsNotPromotions(m: string, x: string, c: Color)
    requires x in Expansions(m)
    ensures !IsPromotionMove(x, c)
  {
    assert x[|x| - 1] == x[|m| + 1];
  }

  /** The promotion moves of a list, in their order (`pawnPromotionMoves`). */
  function PromotionMoves(ms: seq<string>, c: Color): (r: seq<string>)
    ensures |r| <= |ms|
    ensures forall x :: x in r <==> x in ms && IsPromotionMove(x, c)
  {
    if |ms| == 0 then []
    else (if IsPromotionMove(ms[0], c) then [ms[0]] else []) + PromotionMoves(ms[1..], c)
  }

  /** The other moves of a list, in their order. */
  function OtherMoves(ms: seq<string>, c: Color): (r: seq<string>)
    ensures |r| <= |ms|
    ensures forall x :: x in r <==> x in ms && !IsPromotionMove(x, c)
  {
    if |ms| == 0 then []
    else (if IsPromotionMove(ms[0], c) then [] else [ms[0]]) + OtherMoves(ms[1..], c)
  }

  /** Every promotion move split off leaves its four variants in its place. */
  lemma {:induction false} SplitLength(ms: seq<string>, c: Color)
    ensures |OtherMoves(ms, c)| + |PromotionMoves(ms, c)| == |ms|
  {
    if |ms| > 0 {
      SplitLength(ms[1..], c);
    }
  }

  /** The erase-remove idiom: every entry equal to `v` goes, the rest keep their order. */
  function Remove(ms: seq<string>, v: string): (r: seq<string>)
    ensures |r| <= |ms|
    ensures forall x :: x in r <==> x in ms && x != v
  {
    if |ms| == 0 then []
    else (if ms[0] == v then [] else [ms[0]]) + Remove(ms[1..], v)
  }

  /**
    `addPawnPromotionMoves`: under `key`, the move `pm` is removed and its four
    variants appended; a missing key is left alone.
   */
  function AddPawnPromotionMoves(key: string, pm: string, mm: map<string, seq<string>>): (r: map<string, seq<string>>)
    ensures r.Keys == mm.Keys
    ensures forall o :: o in mm && o != key ==> r[o] == mm[o]
    ensures key in mm ==> r[key] == Remove(mm[key], pm) + Expansions(pm)
  {
    if key in mm then mm[key := Remove(mm[key], pm) + Expansions(pm)] else mm
  }

  /** One origin's list after `addPawnPromotionMoves` has run for each of `ps` in turn. */
  function ExpandList(ms: seq<string>, ps: seq<string>): seq<string>
    decreases |ps|
  {
    if |ps| == 0 then ms else ExpandList(Remove(ms, ps[0]) + Expansions(ps[0]), ps[1..])
  }

  /** The reference result: the four variants of each move of `ps`, in order. */
  function AllExpansions(ps: seq<string>): (r: seq<string>)
    ensures |r| == 4 * |ps|
  {
    if |ps| == 0 then [] else Expansions(ps[0]) + AllExpansions(ps[1..])
  }

  /** The entries of `ms` that are not in `ps`, in order. */
  function Except(ms: seq<string>, ps: seq<string>): seq<string> {
    if |ms| == 0 then [] else (if ms[0] in ps then [] else [ms[0]]) + Except(ms[1..], ps)
  }

  lemma {:induction false} ExceptAppend(a: seq<string>, b: seq<string>, ps: seq<string>)
    ensures Except(a + b, ps) == Except(a, ps) + Except(b, ps)
    decreases |a|
  {
    if |a| > 0 {
      assert (a + b)[1..] == a[1..] + b;
      ExceptAppend(a[1..], b, ps);
    } else {
      assert a + b == b;
    }
  }

  lemma {:induction false} ExceptNone(b: seq<string>, ps: seq<string>)
    requires forall x :: x in b ==> x !in ps
    ensures Except(b, ps) == b
    decreases |b|
  {
    if |b| > 0 {
      assert b[0] in b;
      ExceptNone(b[1..], ps);
      assert [b[0]] + b[1..] == b;
    }
  }

  lemma {:induction false} RemoveThenExcept(ms: seq<string>, p: string, ps: seq<string>)
    ensures Except(Remove(ms, p), ps) == Except(ms, [p] + ps)
    decreases |ms|
  {
    if |ms| > 0 {
      RemoveThenExcept(ms[1..], p, ps);
      var head := if ms[0] == p then [] else [ms[0]];
      ExceptAppend(head, Remove(ms[1..], p), ps);
      if ms[0] != p {
        assert Except(head, ps) == if ms[0] in ps then [] else [ms[0]];
      }
    }
  }

  /** A move that does not end in a promotion letter, as no promotion move does. */
  predicate Unexpanded(q: string) {
    |q| > 0 && !IsPromotionLetter(q[|q| - 1])
  }

  /** The variants of a move are none of the unexpanded moves in `ps`. */
  lemma ExpansionsAvoid(p: string, ps: seq<string>)
    requires forall q :: q in ps ==> Unexpanded(q)
    ensures Except(Expansions(p), ps) == Expansions(p)
  {
    forall x | x in Expansions(p)
      ensures x !in ps
    {
      assert x[|x| - 1] == x[|p| + 1];
    }
    ExceptNone(Expansions(p), ps);
  }

  /**
    Expanding the moves `ps` one after another removes every entry equal to
    one of them and appends their variants in order, provided none of them
    ends in a promotion letter (so no variant is removed again).
   */
  lemma {:induction false} ExpandListShape(ms: seq<string>, ps: seq<string>)
    requires forall p :: p in ps ==> Unexpanded(p)
    ensures ExpandList(ms, ps) == Except(ms, ps) + AllExpansions(ps)
    decreases |ps|
  {
    if |ps| == 0 {
      ExceptNone(ms, ps);
    } else {
      var p, rest := ps[0], ps[1..];
      assert ps == [p] + rest;
      assert forall q :: q in rest ==> Unexpanded(q) by {
        forall q | q in rest
          ensures Unexpanded(q)
        {
          assert q in ps;
        }
      }
      var e := Expansions(p);
      var moved := Remove(ms, p);
      calc {
        ExpandList(ms, ps);
        ExpandList(moved + e, rest);
        { ExpandListShape(moved + e, rest); }
        Except(moved + e, rest) + AllExpansions(rest);
        { ExceptAppend(moved, e, rest); }
        Except(moved, rest) + Except(e, rest) + AllExpansions(rest);
        { RemoveThenExcept(ms, p, rest); ExpansionsAvoid(p, rest); }
        Except(ms, ps) + e + AllExpansions(rest);
        Except(ms, ps) + (e + AllExpansions(rest));
        Except(ms, ps) + AllExpansions(ps);
      }
    }
  }

  /** Removing exactly the promotion moves leaves the other moves. */
  lemma {:induction false} ExceptPromotions(ms: seq<string>, ps: seq<string>, c: Color)
    requires forall x :: x in ms ==> (x in ps <==> IsPromotionMove(x, c))
    ensures Except(ms, ps) == OtherMoves(ms, c)
    decreases |ms|
  {
    if |ms| > 0 {
      assert ms[0] in ms;
      forall x | x in ms[1..]
        ensures x in ps <==> IsPromotionMove(x, c)
      {
        assert x in ms;
      }
      ExceptPromotions(ms[1..], ps, c);
    }
  }

  /**
    `checkPawnPromotions`: under every origin, each promotion move is removed
    and its four variants are appended; the origins stay the same.
   */
  function CheckPawnPromotions(mm: map<string, seq<string>>, c: Color): (r: map<string, seq<string>>)
    ensures r.Keys == mm.Keys
    ensures forall o :: o in mm ==> r[o] == OtherMoves(mm[o], c) + AllExpansions(PromotionMoves(mm[o], c))
  {
    var r := map o | o in mm :: ExpandList(mm[o], PromotionMoves(mm[o], c));
    forall o | o in mm
      ensures r[o] == OtherMoves(mm[o], c) + AllExpansions(PromotionMoves(mm[o], c))
    {
      var ps := PromotionMoves(mm[o], c);
      forall q | q in ps
        ensures Unexpanded(q)
      {
        assert IsPromotionMove(q, c);
      }
      ExpandListShape(mm[o], ps);
      ExceptPromotions(mm[o], ps, c);
    }
    r
  }

  /** A list without promotion moves is left exactly as it was. */
  lemma {:induction false} NoPromotionUnchanged(ms: seq<string>, c: Color)
    requires forall x :: x in ms ==> !IsPromotionMove(x, c)
    ensures OtherMoves(ms, c) == ms && PromotionMoves(ms, c) == []
    decreases |ms|
  {
    if |ms| > 0 {
      assert ms[0] in ms;
      NoPromotionUnchanged(ms[1..], c);
      assert [ms[0]] + ms[1..] == ms;
    }
  }

  /**
    A move is listed after expansion exactly when it was listed and is not a
    promotion move, or it is one of the four variants of a listed promotion
    move; the list grows by three entries per promotion move.
   */
  lemma PromotionIff(mm: map<string, seq<string>>, c: Color, o: string, x: string)
    requires o in mm
    ensures x in CheckPawnPromotions(mm, c)[o] <==>
      (x in mm[o] && !IsPromotionMove(x, c))
      || exists p :: p in mm[o] && IsPromotionMove(p, c) && x in Expansions(p)
    ensures |CheckPawnPromotions(mm, c)[o]| == |mm[o]| + 3 * |PromotionMoves(mm[o], c)|
  {
    var ps := PromotionMoves(mm[o], c);
    AllExpansionsIff(ps, x);
    SplitLength(mm[o], c);
  }

  lemma {:induction false} AllExpansionsIff(ps: seq<string>, x: string)
    ensures x in AllExpansions(ps) <==> exists p :: p in ps && x in Expansions(p)
    decreases |ps|
  {
    if |ps| > 0 {
      AllExpansionsIff(ps[1..], x);
      if exists p :: p in ps && x in Expansions(p) {
        var p :| p in ps && x in Expansions(p);
        if p != ps[0] {
          assert p in ps[1..];
        }
      }
    }
  }

  /**
    `performPawnPromotion`'s board write: the square named by the move's last
    two characters receives a piece of the mover's colour of the chosen kind.
   */
  function PerformPawnPromotion(b: Grid, c: Color, stem: string, letter: char): (r: Grid)
    requires Valid(b) && |stem| >= 2 && IsName(stem[|stem| - 2..]) && IsPromotionLetter(letter)
    ensures Valid(r)
    ensures At(r, Parse(stem[|stem| - 2..])) == Occ(c, PromotionKind(letter))
    ensures forall t {:trigger At(r, t)} :: OnBoard(t) && t != Parse(stem[|stem| - 2..]) ==> At(r, t) == At(b, t)
  {
    Set(b, Parse(stem[|stem| - 2..]), Occ(c, PromotionKind(letter)))
  }
}
