/**
  Squares of the 8x8 grid and their two-character algebraic names.

  Row index `y` counts from the top of the printed board: row 0 is rank 8 and
  row 7 is rank 1. Column index `x` is the file: column 0 is file `a`.
 */
module Squares {

  datatype Square = Sq(y: int, x: int)

  predicate OnBoard(s: Square) {
    0 <= s.y < 8 && 0 <= s.x < 8
  }

  /** A well-formed square name: a file letter then a rank digit. */
  predicate IsName(t: string) {
    |t| == 2 && 'a' <= t[0] <= 'h' && '1' <= t[1] <= '8'
  }

  predicate IsFileChar(ch: char) {
    'a' <= ch <= 'h'
  }

  predicate IsDigit(ch: char) {
    '0' <= ch <= '9'
  }

  function FileChar(x: int): (ch: char)
    requires 0 <= x < 8
    ensures IsFileChar(ch)
  {
    ('a' as int + x) as char
  }

  /** The rank digit of row `y`: `std::to_string(8 - y)` is one digit on the board. */
  function RankChar(y: int): (ch: char)
    requires 0 <= y < 8
    ensures '1' <= ch <= '8'
  {
    ('0' as int + 8 - y) as char
  }

  /**
    Decoding of a square name as the engine does it inline:
    row `8 - (t[1] - '0')`, column `t[0] - 'a'`. Only the first two characters are read.
   */
  function Parse(t: string): (s: Square)
    requires |t| >= 2
    ensures IsName(t[..2]) ==> OnBoard(s)
    ensures IsName(t) ==> OnBoard(s)
  {
    assert IsName(t) ==> t[..2] == t;
    Sq(8 - (t[1] as int - '0' as int), t[0] as int - 'a' as int)
  }

  /** `convertToAlgebraicNotationPos`: file letter followed by rank digit. */
  function Name(s: Square): (t: string)
    requires OnBoard(s)
    ensures IsName(t)
    ensures Parse(t) == s
  {
    [FileChar(s.x), RankChar(s.y)]
  }

  /** Decoding then encoding a well-formed name gives the name back. */
  lemma NameOfParse(t: string)
    requires IsName(t)
    ensures OnBoard(Parse(t)) && Name(Parse(t)) == t
  {
    assert t[..2] == t;
  }

  /** Two squares have the same name only if they are the same square. */
  lemma NameInjective(s: Square, s': Square)
    requires OnBoard(s) && OnBoard(s')
    ensures Name(s) == Name(s') <==> s == s'
  {
    if Name(s) == Name(s') {
      assert Parse(Name(s)) == Parse(Name(s'));
    }
  }

  /** The names of the 64 squares. */
  const AllNames: set<string> := set y, x | 0 <= y < 8 && 0 <= x < 8 :: Name(Sq(y, x))

  lemma AllNamesAreNames(t: string)
    ensures t in AllNames <==> IsName(t)
  {
    if IsName(t) {
      NameOfParse(t);
      var s := Parse(t);
      assert Name(Sq(s.y, s.x)) == t;
    }
  }

  /** Square number `k` in row-major order (the engine's `for y, for x` scans). */
  function SqOf(k: int): (s: Square)
    requires 0 <= k < 64
    ensures OnBoard(s)
  {
    Sq(k / 8, k % 8)
  }

  lemma IndexOfSqOf(k: int)
    requires 0 <= k < 64
    ensures IndexOf(SqOf(k)) == k
  {
  }

  function IndexOf(s: Square): (k: int)
    requires OnBoard(s)
    ensures 0 <= k < 64 && SqOf(k) == s
  {
    8 * s.y + s.x
  }
}
