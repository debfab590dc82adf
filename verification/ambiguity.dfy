/**
  Notation disambiguation for knights, bishops, rooks and queens: when two or
  more pieces of the same kind and colour can move to the same square, each
  of their moves to it gains, right after the piece letter, the origin's file,
  its rank, or the whole origin square.
 */
module Ambiguity {
  import opened Squares
  import opened Board
  import Verdicts

  /** The kinds the engine disambiguates, in its order N, B, R, Q. */
  predicate Scanned(k: Kind) {
    k == Knight || k == Bishop || k == Rook || k == Queen
  }

  /**
    A move with its check or mate mark removed: one trailing `+` or `#` goes,
    and a move without a mark is left as it is.
   */
  function Unmark(m: string): (r: string)
    ensures |m| > 0 && Verdicts.IsMark(m[|m| - 1]) ==> r == m[..|m| - 1]
    ensures (|m| == 0 || !Verdicts.IsMark(m[|m| - 1])) ==> r == m
  {
    if |m| > 0 && (m[|m| - 1] == '+' || m[|m| - 1] == '#') then m[..|m| - 1] else m
  }

  /** The move names a destination: the last two characters of its unmarked form. */
  predicate HasTarget(m: string) {
    |Unmark(m)| >= 2 && IsName(Unmark(m)[|Unmark(m)| - 2..])
  }

  function DestName(m: string): (t: string)
    requires HasTarget(m)
    ensures IsName(t)
  {
    Unmark(m)[|Unmark(m)| - 2..]
  }

  /** The origin `o` names a square holding a piece of colour `c` and kind `k`. */
  predicate Holds(b: Grid, c: Color, k: Kind, o: string)
    requires Valid(b)
  {
    IsName(o) && At(b, Parse(o)) == Occ(c, k)
  }

  /** The origin is one the disambiguator looks at. */
  predicate ScannedOrigin(b: Grid, c: Color, o: string)
    requires Valid(b)
  {
    IsName(o) && IsColor(At(b, Parse(o)), c) && Scanned(At(b, Parse(o)).kind)
  }

  /** Every move of a scanned origin names a destination, as the engine's decoding assumes. */
  ghost predicate Readable(b: Grid, c: Color, mm: map<string, seq<string>>)
    requires Valid(b)
  {
    forall o, m :: o in mm && ScannedOrigin(b, c, o) && m in mm[o] ==> HasTarget(m)
  }

  // ---------------------------------------------------------------- the ambiguity map

  /** The moves of one list that go to square `t`. */
  function CountTo(ms: seq<string>, t: string): (n: nat)
    requires forall m :: m in ms ==> HasTarget(m)
    ensures n <= |ms|
  {
    if |ms| == 0 then 0 else (if DestName(ms[0]) == t then 1 else 0) + CountTo(ms[1..], t)
  }

  lemma {:induction false} CountToPositive(ms: seq<string>, t: string)
    requires forall m :: m in ms ==> HasTarget(m)
    ensures CountTo(ms, t) > 0 <==> exists m :: m in ms && DestName(m) == t
  {
    if |ms| > 0 {
      CountToPositive(ms[1..], t);
      if exists m :: m in ms && DestName(m) == t {
        var m :| m in ms && DestName(m) == t;
        if m != ms[0] {
          assert m in ms[1..];
        }
      }
    }
  }

  /** A list with at most one move per destination, as the generators produce. */
  ghost predicate OneMovePerSquare(ms: seq<string>)
    requires forall m :: m in ms ==> HasTarget(m)
  {
    forall i, j :: 0 <= i < j < |ms| ==> DestName(ms[i]) != DestName(ms[j])
  }

  lemma OneMovePerSquareTail(ms: seq<string>)
    requires (forall m :: m in ms ==> HasTarget(m)) && OneMovePerSquare(ms) && |ms| > 0
    ensures OneMovePerSquare(ms[1..])
    ensures forall m :: m in ms[1..] ==> DestName(m) != DestName(ms[0])
  {
    forall i, j | 0 <= i < j < |ms[1..]|
      ensures DestName(ms[1..][i]) != DestName(ms[1..][j])
    {
      assert ms[1..][i] == ms[i + 1] && ms[1..][j] == ms[j + 1];
    }
    forall m | m in ms[1..] ensures DestName(m) != DestName(ms[0]) {
      var j :| 0 <= j < |ms[1..]| && ms[1..][j] == m;
      assert ms[j + 1] == m;
    }
  }

  lemma OneMovePerSquareCons(m: string, ms: seq<string>)
    requires HasTarget(m) && (forall x :: x in ms ==> HasTarget(x)) && OneMovePerSquare(ms)
    requires forall x :: x in ms ==> DestName(x) != DestName(m)
    ensures (forall x :: x in [m] + ms ==> HasTarget(x)) && OneMovePerSquare([m] + ms)
  {
    var r := [m] + ms;
    forall i | 0 < i < |r| ensures r[i] == ms[i - 1] && r[i] in ms {
    }
  }

  /** Removing moves from a list keeps it at one move per destination. */
  lemma {:induction false} DropIllegalOnePerSquare(ms: seq<string>, ts: seq<Verdicts.Tag>)
    requires |ts| == |ms| && (forall m :: m in ms ==> HasTarget(m)) && OneMovePerSquare(ms)
    ensures forall m :: m in Verdicts.DropIllegal(ms, ts) ==> HasTarget(m)
    ensures OneMovePerSquare(Verdicts.DropIllegal(ms, ts))
    decreases |ms|
  {
    if |ms| > 0 {
      var rest := Verdicts.DropIllegal(ms[1..], ts[1..]);
      OneMovePerSquareTail(ms);
      DropIllegalOnePerSquare(ms[1..], ts[1..]);
      if ts[0] != Verdicts.Illegal {
        assert Verdicts.DropIllegal(ms, ts) == [ms[0]] + rest;
        forall x | x in rest ensures DestName(x) != DestName(ms[0]) {
          Verdicts.DropIllegalIff(ms[1..], ts[1..], x);
        }
        OneMovePerSquareCons(ms[0], rest);
      } else {
        assert Verdicts.DropIllegal(ms, ts) == [] + rest;
      }
    }
  }

  lemma {:induction false} CountToAtMostOne(ms: seq<string>, t: string)
    requires forall m :: m in ms ==> HasTarget(m)
    requires OneMovePerSquare(ms)
    ensures CountTo(ms, t) <= 1
  {
    if |ms| > 0 {
      OneMovePerSquareTail(ms);
      CountToAtMostOne(ms[1..], t);
      if DestName(ms[0]) == t {
        CountToPositive(ms[1..], t);
      }
    }
  }

  /** `f(0) + ... + f(j - 1)`. */
  function SumTo(f: int -> nat, j: int): nat
    decreases j
  {
    if j <= 0 then 0 else SumTo(f, j - 1) + f(j - 1)
  }

  lemma {:induction false} SumPositive(f: int -> nat, j: int)
    ensures SumTo(f, j) > 0 <==> exists i :: 0 <= i < j && f(i) > 0
    decreases j
  {
    if j > 0 {
      SumPositive(f, j - 1);
      if f(j - 1) > 0 {
        assert exists i :: 0 <= i < j && f(i) > 0;
      }
    }
  }

  /** A sum of zeros and ones exceeds one exactly when two different terms are one. */
  lemma {:induction false} SumTwo(f: int -> nat, j: int)
    requires forall i :: f(i) <= 1
    ensures SumTo(f, j) > 1 <==> exists i1, i2 :: 0 <= i1 < i2 < j && f(i1) > 0 && f(i2) > 0
    decreases j
  {
    if j > 0 {
      SumTwo(f, j - 1);
      SumPositive(f, j - 1);
      if exists i1, i2 :: 0 <= i1 < i2 < j && f(i1) > 0 && f(i2) > 0 {
        var i1, i2 :| 0 <= i1 < i2 < j && f(i1) > 0 && f(i2) > 0;
        if i2 < j - 1 {
          assert exists a, a' :: 0 <= a < a' < j - 1 && f(a) > 0 && f(a') > 0;
        } else {
          assert exists a :: 0 <= a < j - 1 && f(a) > 0;
        }
      }
      if SumTo(f, j) > 1 && SumTo(f, j - 1) <= 1 {
        var a :| 0 <= a < j - 1 && f(a) > 0;
        assert 0 <= a < j - 1 < j && f(a) > 0 && f(j - 1) > 0;
      }
    }
  }

  /**
    What square number `i` adds to the ambiguity map's counter for `t`: the
    moves to `t` of the piece there, when it is of colour `c` and kind `k`
    and an origin of the map.
   */
  function Contrib(b: Grid, c: Color, k: Kind, mm: map<string, seq<string>>, t: string): int -> nat
    requires Valid(b) && Readable(b, c, mm) && Scanned(k)
  {
    i =>
      if 0 <= i < 64 && At(b, SqOf(i)) == Occ(c, k) && Name(SqOf(i)) in mm then CountTo(mm[Name(SqOf(i))], t)
      else 0
  }

  /** The ambiguity map's counter for square `t`, summed over the engine's row-major scan. */
  function AmbiguityCount(b: Grid, c: Color, k: Kind, mm: map<string, seq<string>>, t: string): nat
    requires Valid(b) && Readable(b, c, mm) && Scanned(k)
  {
    SumTo(Contrib(b, c, k, mm, t), |b| * |b|)
  }

  /** All lists of pieces of colour `c` and kind `k` have one move per destination. */
  ghost predicate Distinct(b: Grid, c: Color, k: Kind, mm: map<string, seq<string>>)
    requires Valid(b) && Readable(b, c, mm) && Scanned(k)
  {
    forall o :: o in mm && Holds(b, c, k, o) ==> OneMovePerSquare(mm[o])
  }

  /** With one move per destination, every square adds at most one. */
  lemma ContribAtMostOne(b: Grid, c: Color, k: Kind, mm: map<string, seq<string>>, t: string)
    requires Valid(b) && Readable(b, c, mm) && Scanned(k) && Distinct(b, c, k, mm)
    ensures forall i :: Contrib(b, c, k, mm, t)(i) <= 1
  {
    forall i
      ensures Contrib(b, c, k, mm, t)(i) <= 1
    {
      if 0 <= i < 64 && At(b, SqOf(i)) == Occ(c, k) && Name(SqOf(i)) in mm {
        assert Holds(b, c, k, Name(SqOf(i)));
        CountToAtMostOne(mm[Name(SqOf(i))], t);
      }
    }
  }

  /** `m.find(sq) != npos`: the square name occurs somewhere in the move. */
  predicate Occurs(m: string, sq: string) {
    exists i :: 0 <= i <= |m| && OccursAt(m, sq, i)
  }

  predicate OccursAt(m: string, sq: string, i: int) {
    0 <= i && i + |sq| <= |m| && m[i..i + |sq|] == sq
  }

  /**
    For a move in the generators' shape (piece letter, optional `x`, square,
    optional mark) the engine's substring search for a square name succeeds
    exactly for the destination, which is the test this model uses.
   */
  lemma OccursIsDest(letter: char, x: string, t: string, mark: string, sq: string)
    requires !IsFileChar(letter) && (x == "" || x == "x") && IsName(t) && IsName(sq)
    requires mark == "" || mark == "+" || mark == "#"
    ensures var m := [letter] + x + t + mark;
      HasTarget(m) && DestName(m) == t && (Occurs(m, sq) <==> sq == t)
  {
    var m := [letter] + x + t + mark;
    var at := 1 + |x|;
    assert m[at..at + 2] == t;
    assert OccursAt(m, t, at);
    assert Unmark(m) == [letter] + x + t;
    forall i | i != at
      ensures !OccursAt(m, sq, i)
    {
      if 0 <= i < at {
        assert m[i] == letter || m[i] == 'x';
        assert m[i..i + 2][0] == m[i];
      } else if at < i && i + 2 <= |m| {
        assert m[i] == t[1];
        assert m[i..i + 2][0] == m[i];
      }
    }
  }

  // ---------------------------------------------------------------- the contenders

  /** `ambiguousPieces`: the origins of kind `k` with a move to `t`. */
  function Contenders(b: Grid, c: Color, k: Kind, mm: map<string, seq<string>>, t: string): (S: set<string>)
    requires Valid(b) && Readable(b, c, mm) && Scanned(k)
    ensures forall p :: p in S ==> IsName(p)
  {
    set o | o in mm && Holds(b, c, k, o) && exists m :: m in mm[o] && DestName(m) == t
  }

  /** An origin contends for `t` exactly when its square adds to the counter. */
  lemma ContenderContributes(b: Grid, c: Color, k: Kind, mm: map<string, seq<string>>, t: string, p: string)
    requires Valid(b) && Readable(b, c, mm) && Scanned(k) && IsName(p)
    ensures OnBoard(Parse(p)) && Name(Parse(p)) == p
    ensures p in Contenders(b, c, k, mm, t) <==> Contrib(b, c, k, mm, t)(IndexOf(Parse(p))) > 0
  {
    NameOfParse(p);
    if p in mm && Holds(b, c, k, p) {
      CountToPositive(mm[p], t);
    }
  }

  /** Two different origins contend for the same square. */
  ghost predicate TwoOf(S: set<string>) {
    exists p, q :: p in S && q in S && p != q
  }

  lemma TwoContendersFromCount(b: Grid, c: Color, k: Kind, mm: map<string, seq<string>>, t: string, i1: int, i2: int)
    requires Valid(b) && Readable(b, c, mm) && Scanned(k)
    requires 0 <= i1 < i2 < 64 && Contrib(b, c, k, mm, t)(i1) > 0 && Contrib(b, c, k, mm, t)(i2) > 0
    ensures TwoOf(Contenders(b, c, k, mm, t))
  {
    var p, q := Name(SqOf(i1)), Name(SqOf(i2));
    ContenderContributes(b, c, k, mm, t, p);
    ContenderContributes(b, c, k, mm, t, q);
    NameInjective(SqOf(i1), SqOf(i2));
  }

  lemma CountFromTwoContenders(b: Grid, c: Color, k: Kind, mm: map<string, seq<string>>, t: string, p: string, q: string)
    requires Valid(b) && Readable(b, c, mm) && Scanned(k)
    requires p in Contenders(b, c, k, mm, t) && q in Contenders(b, c, k, mm, t) && p != q
    ensures var f := Contrib(b, c, k, mm, t);
      exists i1, i2 :: 0 <= i1 < i2 < 64 && f(i1) > 0 && f(i2) > 0
  {
    var f := Contrib(b, c, k, mm, t);
    ContenderContributes(b, c, k, mm, t, p);
    ContenderContributes(b, c, k, mm, t, q);
    var i, j := IndexOf(Parse(p)), IndexOf(Parse(q));
    assert i != j;
    if i < j {
      assert f(i) > 0 && f(j) > 0;
    } else {
      assert f(j) > 0 && f(i) > 0;
    }
  }

  /**
    With one move per destination in every list, the counter for `t` exceeds
    one exactly when two different pieces contend for `t`.
   */
  lemma AmbiguousIff(b: Grid, c: Color, k: Kind, mm: map<string, seq<string>>, t: string)
    requires Valid(b) && Readable(b, c, mm) && Scanned(k) && Distinct(b, c, k, mm)
    ensures AmbiguityCount(b, c, k, mm, t) > 1 <==> TwoOf(Contenders(b, c, k, mm, t))
  {
    var S := Contenders(b, c, k, mm, t);
    var f := Contrib(b, c, k, mm, t);
    ContribAtMostOne(b, c, k, mm, t);
    SumTwo(f, |b| * |b|);
    if AmbiguityCount(b, c, k, mm, t) > 1 {
      var i1, i2 :| 0 <= i1 < i2 < 64 && f(i1) > 0 && f(i2) > 0;
      TwoContendersFromCount(b, c, k, mm, t, i1, i2);
    }
    if TwoOf(S) {
      var p, q :| p in S && q in S && p != q;
      CountFromTwoContenders(b, c, k, mm, t, p, q);
    }
  }

  // ---------------------------------------------------------------- the rewrite

  /** `letterCount`: the contenders on the file of `p`, `p` included. */
  function SameFile(S: set<string>, p: string): nat
    requires IsName(p) && forall q :: q in S ==> IsName(q)
  {
    |set q | q in S && IsName(q) && q[0] == p[0]|
  }

  /** `numCount`: the contenders on the rank of `p`, `p` included. */
  function SameRank(S: set<string>, p: string): nat
    requires IsName(p) && forall q :: q in S ==> IsName(q)
  {
    |set q | q in S && IsName(q) && q[1] == p[1]|
  }

  /** What is inserted into the moves of contender `p`. */
  function Disambiguator(S: set<string>, p: string): string
    requires IsName(p) && forall q :: q in S ==> IsName(q)
  {
    if SameFile(S, p) > 1 && SameRank(S, p) > 1 then p
    else if SameFile(S, p) > 1 && SameRank(S, p) == 1 then [p[1]]
    else [p[0]]
  }

  /** A set with `p` in it has more than one element exactly when it has another one. */
  lemma MoreThanOne(F: set<string>, p: string)
    requires p in F
    ensures |F| > 1 <==> exists q :: q in F && q != p
  {
    assert F == (F - {p}) + {p};
    if exists q :: q in F && q != p {
      var q :| q in F && q != p;
      assert q in F - {p};
    }
  }

  /** Another contender stands on the file of `p`. */
  ghost predicate FileTaken(S: set<string>, p: string)
    requires IsName(p)
  {
    exists q :: q in S && IsName(q) && q != p && q[0] == p[0]
  }

  /** Another contender stands on the rank of `p`. */
  ghost predicate RankTaken(S: set<string>, p: string)
    requires IsName(p)
  {
    exists q :: q in S && IsName(q) && q != p && q[1] == p[1]
  }

  lemma SameFileIff(S: set<string>, p: string)
    requires IsName(p) && p in S && forall q :: q in S ==> IsName(q)
    ensures SameFile(S, p) > 1 <==> FileTaken(S, p)
  {
    var F := set q | q in S && IsName(q) && q[0] == p[0];
    MoreThanOne(F, p);
    if FileTaken(S, p) {
      var q :| q in S && IsName(q) && q != p && q[0] == p[0];
      assert q in F;
    }
  }

  lemma SameRankIff(S: set<string>, p: string)
    requires IsName(p) && p in S && forall q :: q in S ==> IsName(q)
    ensures SameRank(S, p) > 1 <==> RankTaken(S, p)
    ensures SameRank(S, p) >= 1
  {
    var R := set q | q in S && IsName(q) && q[1] == p[1];
    MoreThanOne(R, p);
    if RankTaken(S, p) {
      var q :| q in S && IsName(q) && q != p && q[1] == p[1];
      assert q in R;
    }
  }

  /**
    The disambiguation rule in terms of the other contenders: the file letter
    when no other contender shares the file, otherwise the rank digit when no
    other contender shares the rank, otherwise the whole origin square.
   */
  lemma DisambiguatorRule(S: set<string>, p: string)
    requires IsName(p) && p in S && forall q :: q in S ==> IsName(q)
    ensures Disambiguator(S, p) == [p[0]] <==> !FileTaken(S, p)
    ensures Disambiguator(S, p) == [p[1]] <==> FileTaken(S, p) && !RankTaken(S, p)
    ensures Disambiguator(S, p) == p <==> FileTaken(S, p) && RankTaken(S, p)
  {
    SameFileIff(S, p);
    SameRankIff(S, p);
    assert [p[0]] != p && [p[1]] != p && [p[0]] != [p[1]] by {
      assert |p| == 2 && p[0] != p[1];
    }
  }

  /** The move with `d` inserted right after its first character (the piece letter). */
  function Insert(m: string, d: string): (r: string)
    requires |m| >= 1
    ensures |r| == |m| + |d| && r[0] == m[0] && r[1..1 + |d|] == d && r[1 + |d|..] == m[1..]
  {
    [m[0]] + d + m[1..]
  }

  /**
    One move of a scanned origin after `scanAmbiguity`: unchanged unless the
    ambiguity counter of its destination exceeds one, and otherwise with the
    disambiguator of its origin inserted.
   */
  function Disambiguate(b: Grid, c: Color, mm: map<string, seq<string>>, o: string, m: string): string
    requires Valid(b) && Readable(b, c, mm) && o in mm && ScannedOrigin(b, c, o) && m in mm[o]
  {
    var k := At(b, Parse(o)).kind;
    var t := DestName(m);
    if AmbiguityCount(b, c, k, mm, t) > 1 then Insert(m, Disambiguator(Contenders(b, c, k, mm, t), o))
    else m
  }

  /**
    `scanAmbiguity`: the moves of the knights, bishops, rooks and queens of
    colour `c` rewritten as above; every other origin keeps its list.
   */
  function ScanAmbiguity(b: Grid, c: Color, mm: map<string, seq<string>>): (r: map<string, seq<string>>)
    requires Valid(b) && Readable(b, c, mm)
    ensures r.Keys == mm.Keys
    ensures forall o :: o in mm ==> |r[o]| == |mm[o]|
    ensures forall o :: o in mm && !ScannedOrigin(b, c, o) ==> r[o] == mm[o]
    ensures forall o, i :: o in mm && ScannedOrigin(b, c, o) && 0 <= i < |mm[o]| ==>
      r[o][i] == Disambiguate(b, c, mm, o, mm[o][i])
  {
    map o | o in mm ::
      if ScannedOrigin(b, c, o) then seq(|mm[o]|, i requires 0 <= i < |mm[o]| => Disambiguate(b, c, mm, o, mm[o][i]))
      else mm[o]
  }

  /**
    A move of a scanned origin is rewritten exactly when its destination is
    ambiguous, that is (with one move per destination in every list) when
    another piece of the same kind and colour can also move there, and then
    it receives its origin's disambiguator.
   */
  lemma DisambiguateIff(b: Grid, c: Color, mm: map<string, seq<string>>, o: string, m: string)
    requires Valid(b) && Readable(b, c, mm) && o in mm && ScannedOrigin(b, c, o) && m in mm[o]
    requires Distinct(b, c, At(b, Parse(o)).kind, mm)
    ensures var S := Contenders(b, c, At(b, Parse(o)).kind, mm, DestName(m));
      o in S
      && (Disambiguate(b, c, mm, o, m) != m <==> exists q :: q in S && q != o)
      && (Disambiguate(b, c, mm, o, m) != m ==> Disambiguate(b, c, mm, o, m) == Insert(m, Disambiguator(S, o)))
  {
    var k := At(b, Parse(o)).kind;
    var t := DestName(m);
    var S := Contenders(b, c, k, mm, t);
    assert o in S;
    AmbiguousIff(b, c, k, mm, t);
    TwoOfIff(S, o);
  }

  /**
    The rewrite read off the contenders instead of the counter: the origin's
    disambiguator goes in when some other piece of the same kind and colour
    also moves to the square.
   */
  function ContenderRewrite(b: Grid, c: Color, mm: map<string, seq<string>>, o: string, m: string): string
    requires Valid(b) && Readable(b, c, mm) && o in mm && ScannedOrigin(b, c, o) && m in mm[o]
  {
    var S := Contenders(b, c, At(b, Parse(o)).kind, mm, DestName(m));
    if exists q :: q in S && q != o then Insert(m, Disambiguator(S, o)) else m
  }

  /** With one move per destination in every list of the kind, the counter and the contenders agree. */
  lemma DisambiguateByContenders(b: Grid, c: Color, mm: map<string, seq<string>>, o: string, m: string)
    requires Valid(b) && Readable(b, c, mm) && o in mm && ScannedOrigin(b, c, o) && m in mm[o]
    requires Distinct(b, c, At(b, Parse(o)).kind, mm)
    ensures Disambiguate(b, c, mm, o, m) == ContenderRewrite(b, c, mm, o, m)
  {
    DisambiguateIff(b, c, mm, o, m);
  }

  /**
    With one move per destination in every list of the kind, the rewritten
    list of a scanned origin holds exactly the contender rewrites of its moves.
   */
  lemma ScanAmbiguityIff(b: Grid, c: Color, mm: map<string, seq<string>>, o: string, x: string)
    requires Valid(b) && Readable(b, c, mm) && o in mm && ScannedOrigin(b, c, o)
    requires Distinct(b, c, At(b, Parse(o)).kind, mm)
    ensures x in ScanAmbiguity(b, c, mm)[o] <==> exists m :: m in mm[o] && x == ContenderRewrite(b, c, mm, o, m)
  {
    var r := ScanAmbiguity(b, c, mm);
    var ms := mm[o];
    assert |r[o]| == |ms|;
    forall i | 0 <= i < |ms| ensures r[o][i] == ContenderRewrite(b, c, mm, o, ms[i]) {
      DisambiguateByContenders(b, c, mm, o, ms[i]);
    }
    if x in r[o] {
      var i :| 0 <= i < |r[o]| && r[o][i] == x;
      assert ms[i] in ms;
    }
    forall m | m in ms && x == ContenderRewrite(b, c, mm, o, m) ensures x in r[o] {
      var i :| 0 <= i < |ms| && ms[i] == m;
      assert r[o][i] == x;
    }
  }

  /** A set holding `o` has two different members exactly when it has one besides `o`. */
  lemma TwoOfIff(S: set<string>, o: string)
    requires o in S
    ensures TwoOf(S) <==> exists q :: q in S && q != o
  {
    if TwoOf(S) {
      var p, q :| p in S && q in S && p != q;
      assert (p != o && p in S) || (q != o && q in S);
    }
  }

  /** Inserting after the piece letter keeps the destination and the mark. */
  lemma InsertKeepsDest(m: string, d: string)
    requires HasTarget(m) && |Unmark(m)| >= 3
    ensures HasTarget(Insert(m, d)) && DestName(Insert(m, d)) == DestName(m)
    ensures Insert(m, d)[|Insert(m, d)| - 1] == m[|m| - 1]
  {
    if Unmark(m) == m {
      InsertKeepsPlainDest(m, d);
    } else {
      InsertKeepsMarkedDest(m, d);
    }
  }

  lemma InsertKeepsPlainDest(m: string, d: string)
    requires HasTarget(m) && |m| >= 3 && Unmark(m) == m
    ensures HasTarget(Insert(m, d)) && DestName(Insert(m, d)) == DestName(m)
    ensures Insert(m, d)[|Insert(m, d)| - 1] == m[|m| - 1]
  {
    var r := Insert(m, d);
    var tail := m[1..];
    assert r == [m[0]] + d + tail;
    assert r[|r| - 1] == tail[|tail| - 1] == m[|m| - 1];
    assert r[|r| - 2] == tail[|tail| - 2] == m[|m| - 2];
    assert Unmark(r) == r;
    assert DestName(m) == [m[|m| - 2], m[|m| - 1]];
    assert DestName(r) == [r[|r| - 2], r[|r| - 1]];
  }

  lemma InsertKeepsMarkedDest(m: string, d: string)
    requires HasTarget(m) && |m| >= 4 && Unmark(m) == m[..|m| - 1]
    ensures HasTarget(Insert(m, d)) && DestName(Insert(m, d)) == DestName(m)
    ensures Insert(m, d)[|Insert(m, d)| - 1] == m[|m| - 1]
  {
    var r := Insert(m, d);
    var tail := m[1..];
    assert r == [m[0]] + d + tail;
    assert r[|r| - 1] == tail[|tail| - 1] == m[|m| - 1];
    assert r[|r| - 2] == tail[|tail| - 2] == m[|m| - 2];
    assert r[|r| - 3] == tail[|tail| - 3] == m[|m| - 3];
    assert Unmark(r) == r[..|r| - 1];
    assert DestName(m) == [m[|m| - 3], m[|m| - 2]];
    assert DestName(r) == [r[|r| - 3], r[|r| - 2]];
  }

  /**
    Two different contenders for one square get different notations: their
    rewritten moves differ right after the piece letter.
   */
  lemma DisambiguatedDistinct(S: set<string>, p: string, q: string, mp: string, mq: string)
    requires p in S && q in S && p != q && forall s :: s in S ==> IsName(s)
    requires |mp| >= 1 && |mq| >= 1
    ensures Insert(mp, Disambiguator(S, p)) != Insert(mq, Disambiguator(S, q))
  {
    DisambiguatorRule(S, p);
    DisambiguatorRule(S, q);
    var dp, dq := Disambiguator(S, p), Disambiguator(S, q);
    var rp, rq := Insert(mp, dp), Insert(mq, dq);
    assert rp[1] == dp[0] && rq[1] == dq[0];
    if |dp| == 2 && |dq| == 2 {
      assert rp[1..3] == p && rq[1..3] == q;
    } else if |dp| == 2 {
      assert rp[1..3] == p;
      assert rq[1] == dq[0];
    }
  }

  // ---------------------------------------------------------------- modifyLegalMove

  /** The list with its first entry equal to `v` replaced by `nv`. */
  function ReplaceFirst(ms: seq<string>, v: string, nv: string): (r: seq<string>)
    ensures |r| == |ms|
  {
    if |ms| == 0 then []
    else if ms[0] == v then [nv] + ms[1..]
    else [ms[0]] + ReplaceFirst(ms[1..], v, nv)
  }

  /** Without an occurrence of `v`, `ReplaceFirst` changes nothing. */
  lemma {:induction false} ReplaceFirstAbsent(ms: seq<string>, v: string, nv: string)
    requires v !in ms
    ensures ReplaceFirst(ms, v, nv) == ms
  {
    if |ms| > 0 {
      assert v !in ms[1..] by { assert forall x :: x in ms[1..] ==> x in ms; }
      ReplaceFirstAbsent(ms[1..], v, nv);
    }
  }

  /** `ReplaceFirst` writes `nv` at the first occurrence of `v` and nowhere else. */
  lemma {:induction false} ReplaceFirstAt(ms: seq<string>, v: string, nv: string, i: int)
    requires 0 <= i < |ms| && ms[i] == v && v !in ms[..i]
    ensures ReplaceFirst(ms, v, nv) == ms[i := nv]
  {
    if i > 0 {
      assert ms[0] != v by { assert ms[0] in ms[..i]; }
      assert ms[1..][..i - 1] == ms[1..i];
      assert v !in ms[1..][..i - 1] by {
        assert forall x :: x in ms[1..i] ==> x in ms[..i];
      }
      ReplaceFirstAt(ms[1..], v, nv, i - 1);
      assert [ms[0]] + ms[1..][i - 1 := nv] == ms[i := nv];
    }
  }

  /** `modifyLegalMove`: under origin `key`, the first move equal to `v` becomes `nv`. */
  function ModifyLegalMove(mm: map<string, seq<string>>, key: string, v: string, nv: string): (r: map<string, seq<string>>)
    ensures r.Keys == mm.Keys
    ensures forall o :: o in mm && o != key ==> r[o] == mm[o]
  {
    if key in mm then mm[key := ReplaceFirst(mm[key], v, nv)] else mm
  }

  /**
    In a list without repeats, replacing the first copy of entry `i` is the
    same as writing index `i`, which is why the rewrite can be stated move by move.
   */
  lemma ModifyAt(mm: map<string, seq<string>>, key: string, i: int, nv: string)
    requires key in mm && 0 <= i < |mm[key]|
    requires forall a, b :: 0 <= a < b < |mm[key]| ==> mm[key][a] != mm[key][b]
    ensures ModifyLegalMove(mm, key, mm[key][i], nv) == mm[key := mm[key][i := nv]]
  {
    var ms := mm[key];
    assert ms[i] !in ms[..i];
    ReplaceFirstAt(ms, ms[i], nv, i);
  }
}
