/**
 * The rules of one line (a row or a column) of a skyscraper puzzle: how many
 * buildings are seen from one end, what a clue demands, and when a line has
 * a repeated value. Cells are the characters of the board: '-' is an empty
 * cell and any other character c stands for a building of height c - '0',
 * computed on C's signed chars.
 */
module Skyline {
  /** The largest board the programs handle. */
  const MAX_LENGTH := 20

  /** The empty cell. */
  const EMPTY := '-'

  /**
   * A C char (signed, 8 bits) holding code: the low byte of code read in
   * two's complement.
   */
  function SignedChar(code: int): (c: int)
    ensures -128 <= c < 128
    ensures (code - c) % 256 == 0
  {
    var low := code % 256;
    if low < 128 then low else low - 256
  }

  /**
   * The height a cell stands for: c - '0' on signed chars, so a byte from
   * 0x80 up gives a negative height. For ASCII it is the plain difference.
   */
  function Height(c: char): (h: int)
    ensures -128 - '0' as int <= h < 128 - '0' as int
    ensures c as int < 128 ==> h == c as int - '0' as int
  {
    SignedChar(c as int) - '0' as int
  }

  /**
   * The heights of a line as count_visible sees them; an empty cell counts as
   * height 0, which can never be taller than the running maximum (it starts at 0).
   */
  function Heights(line: seq<char>): (h: seq<int>)
    ensures |h| == |line|
    ensures forall i :: 0 <= i < |line| ==> h[i] == if line[i] == EMPTY then 0 else Height(line[i])
  {
    if line == [] then [] else Heights(line[..|line| - 1]) + [if line[|line| - 1] == EMPTY then 0 else Height(line[|line| - 1])]
  }

  function Max(a: int, b: int): int { if a < b then b else a }

  /** The running maximum after the whole sequence, starting from 0. */
  function Tallest(h: seq<int>): (t: int)
    ensures t >= 0
  {
    if h == [] then 0 else Max(Tallest(h[..|h| - 1]), h[|h| - 1])
  }

  /** The number of strict running maxima, left to right, over a start value of 0. */
  function Visible(h: seq<int>): nat
  {
    if h == [] then 0
    else Visible(h[..|h| - 1]) + (if h[|h| - 1] > Tallest(h[..|h| - 1]) then 1 else 0)
  }

  /** The positions whose height beats everything before them. */
  function Records(h: seq<int>): set<int>
  {
    set i | 0 <= i < |h| && h[i] > Tallest(h[..i])
  }

  /** Visible counts exactly the positions that beat everything before them. */
  lemma {:induction false} VisibleCountsRecords(h: seq<int>)
    ensures Visible(h) == |Records(h)|
  {
    if h != [] {
      var n := |h| - 1;
      var init := h[..n];
      VisibleCountsRecords(init);
      var extra: set<int> := if h[n] > Tallest(init) then {n} else {};
      forall i | 0 <= i < n
        ensures i in Records(h) <==> i in Records(init)
      {
        assert h[..i] == init[..i];
        assert h[i] == init[i];
      }
      assert Records(h) == Records(init) + extra;
      assert Records(init) !! extra;
    }
  }

  /** The running maximum bounds every height and is reached by one of them unless it is 0. */
  lemma {:induction false} TallestBounds(h: seq<int>)
    ensures forall i :: 0 <= i < |h| ==> h[i] <= Tallest(h)
    ensures Tallest(h) == 0 || exists i :: 0 <= i < |h| && h[i] == Tallest(h)
  {
    if h != [] {
      var init := h[..|h| - 1];
      TallestBounds(init);
      assert forall i :: 0 <= i < |init| ==> h[i] == init[i];
    }
  }

  /** No more buildings are seen than there are cells. */
  lemma {:induction false} VisibleAtMost(h: seq<int>)
    ensures Visible(h) <= |h|
  {
    if h != [] {
      VisibleAtMost(h[..|h| - 1]);
    }
  }

  /** The tallest building, when it is taller than 0, is always seen. */
  lemma {:induction false} TallestSeen(h: seq<int>)
    requires exists i :: 0 <= i < |h| && h[i] > 0
    ensures Visible(h) >= 1
  {
    var init := h[..|h| - 1];
    if h[|h| - 1] <= Tallest(init) {
      if init != [] && exists i :: 0 <= i < |init| && init[i] > 0 {
        TallestSeen(init);
      } else {
        var i :| 0 <= i < |h| && h[i] > 0;
        if i < |h| - 1 {
          assert init[i] > 0;
        }
        TallestBounds(init);
        assert false;
      }
    }
  }

  /** In a strictly increasing line of positive heights every building is seen. */
  lemma {:induction false} IncreasingAllSeen(h: seq<int>)
    requires forall i :: 0 <= i < |h| ==> h[i] > 0
    requires forall i, j :: 0 <= i < j < |h| ==> h[i] < h[j]
    ensures Visible(h) == |h|
  {
    if h != [] {
      var init := h[..|h| - 1];
      IncreasingAllSeen(init);
      TallestBounds(init);
      if Tallest(init) != 0 {
        var i :| 0 <= i < |init| && init[i] == Tallest(init);
        assert h[i] < h[|h| - 1];
      }
    }
  }

  /**
   * From position d on, each building still seen beats the running maximum,
   * which is at least h[d]: the count so far plus h[d] is at most d + 1
   * plus the running maximum.
   */
  lemma {:induction false} SeenAfter(h: seq<int>, d: int, k: int)
    requires 0 <= d < k <= |h|
    ensures Visible(h[..k]) + h[d] <= d + 1 + Tallest(h[..k])
    decreases k
  {
    if k == d + 1 {
      VisibleAtMost(h[..k]);
      TallestBounds(h[..k]);
      assert h[..k][d] == h[d];
    } else {
      SeenAfter(h, d, k - 1);
      assert h[..k] == h[..k - 1] + [h[k - 1]];
      VisibleSnoc(h[..k - 1], h[k - 1]);
    }
  }

  /**
   * A line of heights at most n in which c buildings are seen from the
   * start has at position d a height of at most n - c + 1 + d.
   */
  lemma ClueBound(h: seq<int>, n: int, d: int)
    requires 0 <= n && forall i :: 0 <= i < |h| ==> h[i] <= n
    requires 0 <= d < |h|
    ensures h[d] <= n - Visible(h) + 1 + d
  {
    SeenAfter(h, d, |h|);
    assert h[..|h|] == h;
    TallestBounds(h);
  }

  /** The line without its empty cells. */
  function Filled(line: seq<char>): seq<char>
  {
    if line == [] then []
    else Filled(line[..|line| - 1]) + (if line[|line| - 1] == EMPTY then [] else [line[|line| - 1]])
  }

  /** Appending one height: the count grows exactly when it beats the running maximum. */
  lemma VisibleSnoc(h: seq<int>, x: int)
    ensures (h + [x])[..|h|] == h
    ensures Tallest(h + [x]) == Max(Tallest(h), x)
    ensures Visible(h + [x]) == Visible(h) + (if x > Tallest(h) then 1 else 0)
  {
    assert (h + [x])[..|h|] == h;
  }

  /** The heights of a prefix one cell longer. */
  lemma HeightsSnoc(line: seq<char>, i: int)
    requires 0 <= i < |line|
    ensures Heights(line[..i + 1]) == Heights(line[..i]) + [if line[i] == EMPTY then 0 else Height(line[i])]
  {
    assert line[..i + 1][..i] == line[..i];
  }

  /** Empty cells are ignored: the count is that of the filled cells alone. */
  lemma {:induction false} VisibleIgnoresEmpty(line: seq<char>)
    ensures Visible(Heights(line)) == Visible(Heights(Filled(line)))
    ensures Tallest(Heights(line)) == Tallest(Heights(Filled(line)))
  {
    if line != [] {
      var n := |line| - 1;
      var c := line[n];
      var x := if c == EMPTY then 0 else Height(c);
      VisibleIgnoresEmpty(line[..n]);
      assert line[..n + 1] == line;
      HeightsSnoc(line, n);
      VisibleSnoc(Heights(line[..n]), x);
      if c == EMPTY {
        assert Filled(line) == Filled(line[..n]);
      } else {
        var f := Filled(line[..n]);
        assert Filled(line) == f + [c];
        assert (f + [c])[..|f|] == f;
        assert Heights(f + [c]) == Heights(f) + [x];
        VisibleSnoc(Heights(f), x);
      }
    }
  }

  function Reverse<T>(s: seq<T>): (r: seq<T>)
    ensures |r| == |s|
    ensures forall i :: 0 <= i < |s| ==> r[i] == s[|s| - 1 - i]
  {
    if s == [] then [] else [s[|s| - 1]] + Reverse(s[..|s| - 1])
  }

  lemma ReverseReverse<T>(s: seq<T>)
    ensures Reverse(Reverse(s)) == s
  {
  }

  /** How many buildings are seen from the start of the line (count_visible). */
  function SeenFromStart(line: seq<char>): nat
  {
    Visible(Heights(line))
  }

  /** How many buildings are seen from the end of the line (count_visible of the reversed copy). */
  function SeenFromEnd(line: seq<char>): nat
  {
    Visible(Heights(Reverse(line)))
  }

  /** A clue of 0 imposes nothing; any other clue must equal the number seen. */
  predicate ClueHolds(clue: int, seen: int)
  {
    clue == 0 || seen == clue
  }

  /** A line holds no empty cell. */
  predicate Complete(line: seq<char>)
  {
    forall i :: 0 <= i < |line| ==> line[i] != EMPTY
  }

  /** A complete line must match both of its clues; an incomplete one is not checked. */
  predicate CluesAllow(line: seq<char>, clueStart: int, clueEnd: int)
  {
    Complete(line) ==> ClueHolds(clueStart, SeenFromStart(line)) && ClueHolds(clueEnd, SeenFromEnd(line))
  }

  /** No non-empty value occurs twice in the line. */
  predicate NoRepeats(line: seq<char>)
  {
    forall j, k :: 0 <= j < k < |line| && line[j] != EMPTY ==> line[j] != line[k]
  }
}
