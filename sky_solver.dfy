/**
 * The constraint-propagation solver of skyscraper_solver.c. Besides the
 * board it keeps, for every cell, which heights 1..size are still possible
 * (the candidate cube). Each line (row or column) is refined from the list of
 * all its sequences that agree with the board, the candidates and the clues;
 * passes over all lines repeat until one changes nothing.
 */
module SkySolver {
  import opened Skyline
  import opened SkyBoard

  /** The most sequences recorded for one line. */
  const MAX_SEQUENCE_CAP := 50000

  /** The board cell at position pos of row idx (horizontal) or column idx. */
  function CellOf(horizontal: bool, idx: int, pos: int): (int, int)
  {
    if horizontal then (idx, pos) else (pos, idx)
  }

  /** The height generate_sequences_line fixes for a cell: 0 (free) for '-' and for '0'. */
  function Fixed(c: char): int
  {
    if c == EMPTY then 0 else Height(c)
  }

  /** A cell the solver can read: empty, or a digit '0' up to '0' + MAX_LENGTH. */
  predicate InRange(c: char)
  {
    c == EMPTY || ('0' as int <= c as int <= '0' as int + MAX_LENGTH)
  }

  /** The sequence with entries i and j exchanged: the same entries, two of them moved. */
  function Swap(s: seq<int>, i: int, j: int): (t: seq<int>)
    requires 0 <= i < |s| && 0 <= j < |s|
    ensures |t| == |s| && t[i] == s[j] && t[j] == s[i]
    ensures forall k :: 0 <= k < |s| && k != i && k != j ==> t[k] == s[k]
    ensures multiset(t) == multiset(s)
  {
    var u := s[i := s[j]];
    assert multiset(u) == multiset(s) - multiset{s[i]} + multiset{s[j]};
    u[j := s[i]]
  }

  /** The candidate flag the solver starts with for height d + 1 of a cell holding c. */
  function Initial(c: char, d: int): bool
  {
    c == EMPTY || d == Height(c) - 1
  }

  /**
   * The tallest height a clue leaves to the cell at distance d from it:
   * size - clue + 1 + d for a clue strictly between 1 and size, and no
   * limit below size otherwise (clues 0, 1 and size are not used here).
   */
  function Cap(clue: int, size: int, d: int): int
  {
    if 1 < clue < size then size - clue + 1 + d else size
  }

  /** The distance of position pos from the start, or from the end, of a line of the given size. */
  function Distance(fromEnd: bool, size: int, pos: int): int
  {
    if fromEnd then size - 1 - pos else pos
  }

  /**
   * The clue caps never rule out a height that a line meeting its clues
   * puts there: in a line of heights 1..size, the height at distance d from
   * a clue is at most Cap(clue, size, d).
   */
  lemma CapsKeepLines(s: seq<int>, clueStart: int, clueEnd: int, p: int)
    requires forall i :: 0 <= i < |s| ==> 1 <= s[i] <= |s|
    requires ClueHolds(clueStart, Visible(s)) && ClueHolds(clueEnd, Visible(Reverse(s)))
    requires 0 <= p < |s|
    ensures s[p] <= Cap(clueStart, |s|, Distance(false, |s|, p))
    ensures s[p] <= Cap(clueEnd, |s|, Distance(true, |s|, p))
  {
    CapKeepsStart(s, clueStart, p);
    var r := Reverse(s);
    assert forall i :: 0 <= i < |r| ==> 1 <= r[i] <= |r| by {
      forall i | 0 <= i < |r| ensures 1 <= r[i] <= |r| {
        assert r[i] == s[|s| - 1 - i];
      }
    }
    CapKeepsStart(r, clueEnd, |s| - 1 - p);
    assert r[|s| - 1 - p] == s[p];
  }

  /** The cap of the clue at the start of the line, for a line that meets that clue. */
  lemma CapKeepsStart(s: seq<int>, clue: int, p: int)
    requires forall i :: 0 <= i < |s| ==> 1 <= s[i] <= |s|
    requires ClueHolds(clue, Visible(s))
    requires 0 <= p < |s|
    ensures s[p] <= Cap(clue, |s|, p)
  {
    if 1 < clue < |s| {
      ClueBound(s, |s|, p);
    }
  }

  /** The indices 0 .. n - 1 in order. */
  function Indices(n: nat): (s: seq<int>)
    ensures |s| == n && forall k :: 0 <= k < n ==> s[k] == k
  {
    seq(n, k => k)
  }

  /** One pass over a sequence of heights with a running maximum (the vis1 loop). */
  method CountRising(s: seq<int>) returns (vis: int)
    ensures vis == Visible(s)
  {
    vis := 0;
    var tallest := 0;
    var i := 0;
    while i < |s|
      invariant 0 <= i <= |s|
      invariant vis == Visible(s[..i]) && tallest == Tallest(s[..i])
    {
      assert s[..i + 1] == s[..i] + [s[i]];
      VisibleSnoc(s[..i], s[i]);
      if s[i] > tallest {
        tallest := s[i];
        vis := vis + 1;
      }
      i := i + 1;
    }
    assert s[..|s|] == s;
  }

  /** The same pass from the far end (the vis2 loop). */
  method CountRisingFromEnd(s: seq<int>) returns (vis: int)
    ensures vis == Visible(Reverse(s))
  {
    vis := 0;
    var tallest := 0;
    var i := |s| - 1;
    ghost var r := Reverse(s);
    while i >= 0
      invariant -1 <= i < |s|
      invariant vis == Visible(r[..|s| - 1 - i]) && tallest == Tallest(r[..|s| - 1 - i])
    {
      var n := |s| - 1 - i;
      assert r[..n + 1] == r[..n] + [s[i]];
      VisibleSnoc(r[..n], s[i]);
      if s[i] > tallest {
        tallest := s[i];
        vis := vis + 1;
      }
      i := i - 1;
    }
    assert r[..|s|] == r;
  }

  class Solver {
    const board: Board
    const cand: array3<bool>

    /** The global arrays have their fixed sizes. */
    predicate Valid()
    {
      && board.Valid()
      && cand.Length0 == MAX_LENGTH && cand.Length1 == MAX_LENGTH && cand.Length2 == MAX_LENGTH
    }

    /** The program starts with an all-false cube. */
    constructor (b: Board)
      requires b.Valid()
      ensures Valid() && board == b && fresh(cand)
      ensures forall i, j, d :: 0 <= i < MAX_LENGTH && 0 <= j < MAX_LENGTH && 0 <= d < MAX_LENGTH ==> !cand[i, j, d]
    {
      board := b;
      cand := new bool[MAX_LENGTH, MAX_LENGTH, MAX_LENGTH]((i, j, d) => false);
    }

    /** No height above size is ever a candidate. */
    ghost predicate Bounded()
      requires Valid()
      reads cand
    {
      forall i, j, d :: 0 <= i < MAX_LENGTH && 0 <= j < MAX_LENGTH && board.size <= d < MAX_LENGTH ==> !cand[i, j, d]
    }

    /** Every cell in use is empty or a digit the candidate cube has room for. */
    ghost predicate CellsInRange()
      requires Valid()
      reads board.cells
    {
      forall i, j :: 0 <= i < board.size && 0 <= j < board.size ==> InRange(board.cells[i, j])
    }

    /** The clue at the start (left or top) and at the end (right or bottom) of a line. */
    function ClueStart(horizontal: bool, idx: int): int
      requires Valid() && 0 <= idx < board.size
      reads board.leftKey, board.topKey
    {
      if horizontal then board.leftKey[idx] else board.topKey[idx]
    }

    function ClueEnd(horizontal: bool, idx: int): int
      requires Valid() && 0 <= idx < board.size
      reads board.rightKey, board.bottomKey
    {
      if horizontal then board.rightKey[idx] else board.bottomKey[idx]
    }

    /** The character at position pos of a line. */
    function LineChar(horizontal: bool, idx: int, pos: int): char
      requires Valid() && 0 <= idx < board.size && 0 <= pos < board.size
      reads board.cells
    {
      if horizontal then board.cells[idx, pos] else board.cells[pos, idx]
    }

    /** Height v may stand at position pos of a line: in 1..size, still a candidate, and the cell's own value if it is fixed. */
    ghost predicate Allows(horizontal: bool, idx: int, pos: int, v: int)
      requires Valid() && 0 <= idx < board.size && 0 <= pos < board.size
      reads board.cells, cand
    {
      var (r, c) := CellOf(horizontal, idx, pos);
      var fixed := Fixed(LineChar(horizontal, idx, pos));
      1 <= v <= board.size && cand[r, c, v - 1] && (fixed != 0 ==> v == fixed)
    }

    /** A prefix of a line's heights: each allowed where it stands, no height twice. */
    ghost predicate GoodPrefix(horizontal: bool, idx: int, s: seq<int>)
      requires Valid() && 0 <= idx < board.size
      reads board.cells, cand
    {
      && |s| <= board.size
      && (forall p :: 0 <= p < |s| ==> Allows(horizontal, idx, p, s[p]))
      && (forall p, q :: 0 <= p < q < |s| ==> s[p] != s[q])
    }

    /** A sequence generate_sequences_line may record: a full good prefix that meets both clues. */
    ghost predicate Admissible(horizontal: bool, idx: int, s: seq<int>)
      requires Valid() && 0 <= idx < board.size
      reads board.cells, cand, board.leftKey, board.topKey, board.rightKey, board.bottomKey
    {
      && |s| == board.size
      && GoodPrefix(horizontal, idx, s)
      && ClueHolds(ClueStart(horizontal, idx), Visible(s))
      && ClueHolds(ClueEnd(horizontal, idx), Visible(Reverse(s)))
    }

    /** used[d] says exactly which heights the prefix holds. */
    ghost predicate UsedTracks(used: array<bool>, s: seq<int>)
      reads used
    {
      used.Length == MAX_LENGTH + 1 &&
      forall d :: 0 <= d <= MAX_LENGTH ==> (used[d] <==> d in s)
    }

    /**
     * generate_sequences_line: extend the prefix curseq[..pos] in every way
     * the cell at pos allows (its fixed height, or each unused candidate in
     * increasing order), recording each complete sequence that meets the
     * clues while fewer than MAX_SEQUENCE_CAP are recorded. used and
     * curseq[..pos] are as they were on return.
     */
    method GenerateSequences(idx: int, horizontal: bool, pos: int, used: array<bool>, curseq: array<int>, found: seq<seq<int>>)
      returns (found': seq<seq<int>>)
      requires Valid() && Bounded() && CellsInRange()
      requires 0 <= idx < board.size && 0 <= pos <= board.size
      requires curseq.Length == MAX_LENGTH
      requires curseq != board.topKey && curseq != board.bottomKey && curseq != board.leftKey && curseq != board.rightKey
      requires GoodPrefix(horizontal, idx, curseq[..pos]) && UsedTracks(used, curseq[..pos])
      requires |found| <= MAX_SEQUENCE_CAP
      modifies used, curseq
      ensures used[..] == old(used[..]) && curseq[..pos] == old(curseq[..pos])
      ensures found <= found' && |found'| <= MAX_SEQUENCE_CAP
      ensures forall k :: |found| <= k < |found'| ==> Admissible(horizontal, idx, found'[k])
      decreases board.size - pos, 1
    {
      if pos == board.size {
        found' := Record(idx, horizontal, curseq[..pos], found);
        return;
      }
      var (r, c) := CellOf(horizontal, idx, pos);
      var fixed := 0;
      if board.cells[r, c] != EMPTY {
        fixed := Height(board.cells[r, c]);
      }
      found' := found;
      if fixed != 0 {
        if !cand[r, c, fixed - 1] {
          return;
        }
        if used[fixed] {
          return;
        }
        found' := Branch(idx, horizontal, pos, used, curseq, fixed, found);
      } else {
        var d := 1;
        while d <= board.size
          invariant 1 <= d <= board.size + 1
          invariant used[..] == old(used[..]) && curseq[..pos] == old(curseq[..pos])
          invariant found <= found' && |found'| <= MAX_SEQUENCE_CAP
          invariant forall k :: |found| <= k < |found'| ==> Admissible(horizontal, idx, found'[k])
        {
          if !used[d] && cand[r, c, d - 1] {
            found' := Branch(idx, horizontal, pos, used, curseq, d, found');
          }
          d := d + 1;
        }
      }
    }

    /** The base case: count from both ends and record a copy when both clues hold and there is room. */
    method Record(idx: int, horizontal: bool, s: seq<int>, found: seq<seq<int>>) returns (found': seq<seq<int>>)
      requires Valid() && 0 <= idx < board.size
      requires |s| == board.size && GoodPrefix(horizontal, idx, s)
      requires |found| <= MAX_SEQUENCE_CAP
      ensures found <= found' && |found'| <= MAX_SEQUENCE_CAP
      ensures found' == found || (found' == found + [s] && Admissible(horizontal, idx, s))
      ensures found' == if Admissible(horizontal, idx, s) && |found| < MAX_SEQUENCE_CAP then found + [s] else found
    {
      var clue1 := ClueStart(horizontal, idx);
      var clue2 := ClueEnd(horizontal, idx);
      var vis1 := CountRising(s);
      var vis2 := CountRisingFromEnd(s);
      found' := found;
      if (clue1 == 0 || vis1 == clue1) && (clue2 == 0 || vis2 == clue2) {
        if |found| < MAX_SEQUENCE_CAP {
          found' := found + [s];
        }
      }
    }

    /** One branch of the search: place v at pos, recurse, and take v back. */
    method Branch(idx: int, horizontal: bool, pos: int, used: array<bool>, curseq: array<int>, v: int, found: seq<seq<int>>)
      returns (found': seq<seq<int>>)
      requires Valid() && Bounded() && CellsInRange()
      requires 0 <= idx < board.size && 0 <= pos < board.size
      requires curseq.Length == MAX_LENGTH
      requires curseq != board.topKey && curseq != board.bottomKey && curseq != board.leftKey && curseq != board.rightKey
      requires GoodPrefix(horizontal, idx, curseq[..pos]) && UsedTracks(used, curseq[..pos])
      requires Allows(horizontal, idx, pos, v) && !used[v]
      requires |found| <= MAX_SEQUENCE_CAP
      modifies used, curseq
      ensures used[..] == old(used[..]) && curseq[..pos] == old(curseq[..pos])
      ensures found <= found' && |found'| <= MAX_SEQUENCE_CAP
      ensures forall k :: |found| <= k < |found'| ==> Admissible(horizontal, idx, found'[k])
      decreases board.size - pos, 0
    {
      Extend(idx, horizontal, pos, used, curseq, v);
      found' := GenerateSequences(idx, horizontal, pos + 1, used, curseq, found);
      used[v] := false;
      assert used[..] == old(used[..]);
    }

    /** Place height v at pos and mark it used (used[v] = true; curseq[pos] = v). */
    method Extend(idx: int, horizontal: bool, pos: int, used: array<bool>, curseq: array<int>, v: int)
      requires Valid() && 0 <= idx < board.size && 0 <= pos < board.size
      requires curseq.Length == MAX_LENGTH
      requires GoodPrefix(horizontal, idx, curseq[..pos]) && UsedTracks(used, curseq[..pos])
      requires Allows(horizontal, idx, pos, v) && !used[v]
      modifies used, curseq
      ensures GoodPrefix(horizontal, idx, curseq[..pos + 1]) && UsedTracks(used, curseq[..pos + 1])
      ensures curseq[..pos] == old(curseq[..pos]) && curseq[pos] == v
      ensures used[..] == old(used[..])[v := true]
    {
      used[v] := true;
      curseq[pos] := v;
      assert curseq[..pos + 1] == old(curseq[..pos]) + [v];
    }

    /** get_valid_sequences: a fresh used[] and curseq[] and a search from position 0. */
    method ValidSequences(idx: int, horizontal: bool) returns (sequences: seq<seq<int>>)
      requires Valid() && Bounded() && CellsInRange() && 0 <= idx < board.size
      ensures |sequences| <= MAX_SEQUENCE_CAP
      ensures forall k :: 0 <= k < |sequences| ==> Admissible(horizontal, idx, sequences[k])
    {
      var used := new bool[MAX_LENGTH + 1](d => false);
      var curseq := new int[MAX_LENGTH](i => 0);
      assert curseq[..0] == [];
      sequences := GenerateSequences(idx, horizontal, 0, used, curseq, []);
    }

    /** The live candidates, as (row, column, height - 1). */
    ghost function Live(): set<(int, int, int)>
      requires Valid()
      reads cand
    {
      set i, j, d | 0 <= i < MAX_LENGTH && 0 <= j < MAX_LENGTH && 0 <= d < MAX_LENGTH && cand[i, j, d] :: (i, j, d)
    }

    /** The empty cells. */
    ghost function Empty(): set<(int, int)>
      requires Valid()
      reads board.cells
    {
      set i, j | 0 <= i < MAX_LENGTH && 0 <= j < MAX_LENGTH && board.cells[i, j] == EMPTY :: (i, j)
    }

    /** Candidates were only removed and cells only filled since the old state. */
    twostate predicate OnlyNarrowed()
      requires Valid()
      reads cand, board.cells
    {
      && (forall i, j, d :: 0 <= i < MAX_LENGTH && 0 <= j < MAX_LENGTH && 0 <= d < MAX_LENGTH && cand[i, j, d] ==> old(cand[i, j, d]))
      && (forall i, j :: 0 <= i < MAX_LENGTH && 0 <= j < MAX_LENGTH && board.cells[i, j] != old(board.cells[i, j]) ==>
            old(board.cells[i, j]) == EMPTY && board.cells[i, j] != EMPTY)
    }

    /**
     * When candidates are only removed and cells only filled, both sets can
     * only shrink, and each stays the same exactly when nothing of its kind
     * changed.
     */
    twostate lemma NarrowingShrinks()
      requires Valid() && OnlyNarrowed()
      ensures Live() <= old(Live()) && Empty() <= old(Empty())
      ensures Live() == old(Live()) <==>
        forall i, j, d :: 0 <= i < MAX_LENGTH && 0 <= j < MAX_LENGTH && 0 <= d < MAX_LENGTH ==> cand[i, j, d] == old(cand[i, j, d])
      ensures Empty() == old(Empty()) <==>
        forall i, j :: 0 <= i < MAX_LENGTH && 0 <= j < MAX_LENGTH ==> board.cells[i, j] == old(board.cells[i, j])
    {
      forall t | t in Live() ensures t in old(Live()) {
        var (i, j, d) := t;
        assert old(cand[i, j, d]);
      }
      forall t | t in Empty() ensures t in old(Empty()) {
        var (i, j) := t;
        assert old(board.cells[i, j]) == EMPTY;
      }
      if Live() == old(Live()) {
        forall i, j, d | 0 <= i < MAX_LENGTH && 0 <= j < MAX_LENGTH && 0 <= d < MAX_LENGTH
          ensures cand[i, j, d] == old(cand[i, j, d])
        {
          if old(cand[i, j, d]) {
            assert (i, j, d) in old(Live());
          }
        }
      }
      if Empty() == old(Empty()) {
        forall i, j | 0 <= i < MAX_LENGTH && 0 <= j < MAX_LENGTH
          ensures board.cells[i, j] == old(board.cells[i, j])
        {
          if old(board.cells[i, j]) == EMPTY {
            assert (i, j) in old(Empty());
          }
        }
      }
    }

    /** Every sequence has one height in 1..size per position. */
    ghost predicate Shaped(sequences: seq<seq<int>>, size: int)
    {
      forall k :: 0 <= k < |sequences| ==>
        |sequences[k]| == size && forall p :: 0 <= p < size ==> 1 <= sequences[k][p] <= size
    }

    /** Cell (i, j) lies on row idx (horizontal) or column idx. */
    predicate OnLine(horizontal: bool, idx: int, i: int, j: int)
    {
      if horizontal then i == idx else j == idx
    }

    /** The candidate flags of cell (r, c): entry d stands for height d + 1. */
    ghost function Cands(r: int, c: int): (cs: seq<bool>)
      requires Valid() && 0 <= r < MAX_LENGTH && 0 <= c < MAX_LENGTH
      reads cand
      ensures |cs| == MAX_LENGTH
      ensures forall d :: 0 <= d < MAX_LENGTH ==> cs[d] == cand[r, c, d]
    {
      seq(MAX_LENGTH, d requires 0 <= d < MAX_LENGTH reads cand => cand[r, c, d])
    }

    /** The candidates of the cell at position pos of a line. */
    ghost function LineCands(horizontal: bool, idx: int, pos: int): seq<bool>
      requires Valid() && 0 <= idx < board.size && 0 <= pos < board.size
      reads cand
    {
      var (r, c) := CellOf(horizontal, idx, pos);
      Cands(r, c)
    }

    /** Among heights 1..size, v is the one candidate left in cs. */
    static ghost predicate Sole(cs: seq<bool>, size: int, v: int)
    {
      && 1 <= v <= size <= |cs| && cs[v - 1]
      && forall d :: 0 <= d < size && cs[d] ==> d == v - 1
    }

    /** A filled cell holds the one candidate left to it. */
    ghost predicate SoleIfFilled(i: int, j: int)
      requires Valid() && 0 <= i < MAX_LENGTH && 0 <= j < MAX_LENGTH
      reads cand, board.cells
    {
      board.cells[i, j] != EMPTY ==> Sole(Cands(i, j), board.size, Height(board.cells[i, j]))
    }

    /**
     * A cell that was empty with candidates cs0 has been refined by a union
     * of heights: it keeps exactly the candidates in 1..size the union holds
     * (and everything above size), and it is filled exactly when one
     * candidate is left, with that candidate.
     */
    static ghost predicate RefinedFrom(cs: seq<bool>, cell: char, cs0: seq<bool>, union: set<int>, size: int)
    {
      && |cs| == |cs0|
      && (forall d :: 0 <= d < |cs| ==> cs[d] == (cs0[d] && (d >= size || d + 1 in union)))
      && (cell != EMPTY <==> exists v :: Sole(cs, size, v))
      && (cell != EMPTY ==> InRange(cell) && Sole(cs, size, Height(cell)))
    }

    /** The cell and its candidates are as in the old state. */
    twostate predicate Kept(i: int, j: int)
      requires Valid() && 0 <= i < MAX_LENGTH && 0 <= j < MAX_LENGTH
      reads cand, board.cells
    {
      board.cells[i, j] == old(board.cells[i, j]) && Cands(i, j) == old(Cands(i, j))
    }

    /**
     * Both sets shrinking, and filled cells kept: candidates were only
     * removed and cells only filled.
     */
    twostate lemma ShrinkingNarrows()
      requires Valid() && Live() <= old(Live()) && Empty() <= old(Empty())
      requires forall i, j :: 0 <= i < MAX_LENGTH && 0 <= j < MAX_LENGTH && old(board.cells[i, j]) != EMPTY ==>
        board.cells[i, j] == old(board.cells[i, j])
      ensures OnlyNarrowed()
    {
      forall i, j, d | 0 <= i < MAX_LENGTH && 0 <= j < MAX_LENGTH && 0 <= d < MAX_LENGTH && cand[i, j, d]
        ensures old(cand[i, j, d])
      {
        assert (i, j, d) in Live();
      }
      forall i, j | 0 <= i < MAX_LENGTH && 0 <= j < MAX_LENGTH && board.cells[i, j] == EMPTY
        ensures old(board.cells[i, j]) == EMPTY
      {
        assert (i, j) in Empty();
      }
    }

    /** Narrowing keeps candidates within 1..size. */
    twostate lemma NarrowingKeepsBounded()
      requires Valid() && old(Bounded()) && OnlyNarrowed()
      ensures Bounded()
    {
    }

    /** Two shrinking steps: the whole change is non-trivial exactly when one of the steps is. */
    static lemma SubsetChain<T>(a: set<T>, b: set<T>, c: set<T>)
      requires c <= b <= a
      ensures c != a <==> (b != a || c != b)
    {
      if b != a {
        var x :| x in a && x !in b;
        assert x !in c;
      }
    }

    /**
     * sequence_filtration_line: with no recorded sequence nothing changes
     * and the result is false. Otherwise each empty cell of the line is
     * refined from the sequences; filled cells and other lines are left
     * alone. The result says whether anything changed.
     */
    method SequenceFiltrationLine(horizontal: bool, idx: int) returns (changed: bool, ghost sequences: seq<seq<int>>)
      requires Valid() && Bounded() && CellsInRange() && 0 <= idx < board.size
      modifies cand, board.cells
      ensures Bounded() && CellsInRange()
      ensures |sequences| <= MAX_SEQUENCE_CAP
      ensures forall k :: 0 <= k < |sequences| ==> old(Admissible(horizontal, idx, sequences[k]))
      ensures sequences == [] ==> !changed
      ensures OnlyNarrowed() && Live() <= old(Live()) && Empty() <= old(Empty())
      ensures changed <==> Live() != old(Live()) || Empty() != old(Empty())
      ensures forall i, j :: 0 <= i < MAX_LENGTH && 0 <= j < MAX_LENGTH && old(board.cells[i, j]) == EMPTY ==> SoleIfFilled(i, j)
      ensures forall i, j ::
        (0 <= i < MAX_LENGTH && 0 <= j < MAX_LENGTH && (!OnLine(horizontal, idx, i, j) || old(board.cells[i, j]) != EMPTY)) ==>
        Kept(i, j)
      ensures Shaped(sequences, board.size)
      ensures forall p :: 0 <= p < board.size && old(LineChar(horizontal, idx, p)) == EMPTY && sequences != [] ==>
        RefinedFrom(LineCands(horizontal, idx, p), LineChar(horizontal, idx, p),
          old(LineCands(horizontal, idx, p)), UnionAt(sequences, p), board.size)
    {
      var size := board.size;
      var found := ValidSequences(idx, horizontal);
      sequences := found;
      assert Shaped(sequences, size) by {
        forall k, p | 0 <= k < |sequences| && 0 <= p < size ensures 1 <= sequences[k][p] <= size {
          assert Allows(horizontal, idx, p, sequences[k][p]);
        }
      }
      changed := false;
      if |found| == 0 {
        return;
      }
      changed := FilterLine(horizontal, idx, found);
    }

    /** The loop of sequence_filtration_line over the positions of a line, for a non-empty list of sequences. */
    method FilterLine(horizontal: bool, idx: int, sequences: seq<seq<int>>) returns (changed: bool)
      requires Valid() && Bounded() && CellsInRange() && 0 <= idx < board.size
      requires Shaped(sequences, board.size)
      modifies cand, board.cells
      ensures Bounded() && CellsInRange()
      ensures OnlyNarrowed() && Live() <= old(Live()) && Empty() <= old(Empty())
      ensures changed <==> Live() != old(Live()) || Empty() != old(Empty())
      ensures forall i, j :: 0 <= i < MAX_LENGTH && 0 <= j < MAX_LENGTH && old(board.cells[i, j]) == EMPTY ==> SoleIfFilled(i, j)
      ensures forall i, j ::
        (0 <= i < MAX_LENGTH && 0 <= j < MAX_LENGTH && (!OnLine(horizontal, idx, i, j) || old(board.cells[i, j]) != EMPTY)) ==>
        Kept(i, j)
      ensures forall p :: 0 <= p < board.size && old(LineChar(horizontal, idx, p)) == EMPTY ==>
        RefinedFrom(LineCands(horizontal, idx, p), LineChar(horizontal, idx, p),
          old(LineCands(horizontal, idx, p)), UnionAt(sequences, p), board.size)
    {
      var size := board.size;
      changed := false;
      var pos := 0;
      while pos < size
        invariant 0 <= pos <= size
        invariant Live() <= old(Live()) && Empty() <= old(Empty())
        invariant changed <==> Live() != old(Live()) || Empty() != old(Empty())
        invariant forall i, j ::
          (0 <= i < MAX_LENGTH && 0 <= j < MAX_LENGTH &&
           (!OnLine(horizontal, idx, i, j) || (if horizontal then j else i) >= pos || old(board.cells[i, j]) != EMPTY)) ==>
          board.cells[i, j] == old(board.cells[i, j]) && Cands(i, j) == old(Cands(i, j))
        invariant forall p :: 0 <= p < pos && old(LineChar(horizontal, idx, p)) == EMPTY ==>
          RefinedFrom(LineCands(horizontal, idx, p), LineChar(horizontal, idx, p),
            old(LineCands(horizontal, idx, p)), UnionAt(sequences, p), size)
      {
        if LineChar(horizontal, idx, pos) == EMPTY {
          ghost var live, empty := Live(), Empty();
          var cellChanged := FilterAt(horizontal, idx, pos, sequences);
          SubsetChain(old(Live()), live, Live());
          SubsetChain(old(Empty()), empty, Empty());
          changed := changed || cellChanged;
        }
        pos := pos + 1;
      }
      ShrinkingNarrows();
      NarrowingKeepsBounded();
      forall i, j | 0 <= i < board.size && 0 <= j < board.size && board.cells[i, j] != EMPTY
        ensures InRange(board.cells[i, j])
      {
        if board.cells[i, j] != old(board.cells[i, j]) {
          var p := if horizontal then j else i;
          assert CellOf(horizontal, idx, p) == (i, j);
          assert LineChar(horizontal, idx, p) == board.cells[i, j];
          assert old(LineChar(horizontal, idx, p)) == EMPTY;
        } else {
          assert old(CellsInRange());
        }
      }
      forall i, j | 0 <= i < MAX_LENGTH && 0 <= j < MAX_LENGTH && old(board.cells[i, j]) == EMPTY && board.cells[i, j] != EMPTY
        ensures SoleIfFilled(i, j)
      {
        var p := if horizontal then j else i;
        assert CellOf(horizontal, idx, p) == (i, j);
        assert LineChar(horizontal, idx, p) == board.cells[i, j];
        assert LineCands(horizontal, idx, p) == Cands(i, j);
      }
    }


    /** One empty cell of the line refined, in terms of its candidate flags. */
    method FilterAt(horizontal: bool, idx: int, pos: int, sequences: seq<seq<int>>) returns (cellChanged: bool)
      requires Valid() && 0 <= idx < board.size && 0 <= pos < board.size
      requires LineChar(horizontal, idx, pos) == EMPTY
      requires Shaped(sequences, board.size)
      modifies cand, board.cells
      ensures RefinedFrom(LineCands(horizontal, idx, pos), LineChar(horizontal, idx, pos),
        old(LineCands(horizontal, idx, pos)), UnionAt(sequences, pos), board.size)
      ensures forall i, j :: 0 <= i < MAX_LENGTH && 0 <= j < MAX_LENGTH && (i, j) != CellOf(horizontal, idx, pos) ==>
        board.cells[i, j] == old(board.cells[i, j]) && Cands(i, j) == old(Cands(i, j))
      ensures Live() <= old(Live()) && Empty() <= old(Empty())
      ensures cellChanged <==> Live() != old(Live()) || Empty() != old(Empty())
    {
      var (r, c) := CellOf(horizontal, idx, pos);
      cellChanged := RefineCell(r, c, pos, sequences);
      NarrowingShrinks();
      forall i, j | 0 <= i < MAX_LENGTH && 0 <= j < MAX_LENGTH && (i, j) != (r, c) ensures Cands(i, j) == old(Cands(i, j)) {
        assert Cands(i, j) == old(Cands(i, j));
      }
      assert forall v :: SoleCandidate(r, c, v) <==> Sole(Cands(r, c), board.size, v);
    }

    /** The heights the recorded sequences put at position pos. */
    ghost function UnionAt(sequences: seq<seq<int>>, pos: int): set<int>
      requires forall k :: 0 <= k < |sequences| ==> pos < |sequences[k]|
      requires 0 <= pos
    {
      set k | 0 <= k < |sequences| :: sequences[k][pos]
    }

    /** v is the one remaining candidate of cell (r, c). */
    ghost predicate SoleCandidate(r: int, c: int, v: int)
      requires Valid() && 0 <= r < MAX_LENGTH && 0 <= c < MAX_LENGTH
      reads cand
    {
      && 1 <= v <= board.size && cand[r, c, v - 1]
      && forall d :: 0 <= d < board.size && cand[r, c, d] ==> d == v - 1
    }

    /**
     * The body of sequence_filtration_line for one empty cell: drop every
     * candidate no recorded sequence puts there, then fill the cell when
     * exactly one candidate is left.
     */
    method RefineCell(r: int, c: int, pos: int, sequences: seq<seq<int>>) returns (cellChanged: bool)
      requires Valid() && 0 <= r < board.size && 0 <= c < board.size && 0 <= pos < board.size
      requires board.cells[r, c] == EMPTY
      requires forall k :: 0 <= k < |sequences| ==> |sequences[k]| == board.size && 1 <= sequences[k][pos] <= board.size
      modifies cand, board.cells
      ensures forall d :: 0 <= d < MAX_LENGTH ==>
        cand[r, c, d] == (old(cand[r, c, d]) && (d >= board.size || d + 1 in UnionAt(sequences, pos)))
      ensures forall i, j, d :: 0 <= i < MAX_LENGTH && 0 <= j < MAX_LENGTH && 0 <= d < MAX_LENGTH && (i != r || j != c) ==>
        cand[i, j, d] == old(cand[i, j, d])
      ensures forall i, j :: 0 <= i < MAX_LENGTH && 0 <= j < MAX_LENGTH && (i != r || j != c) ==>
        board.cells[i, j] == old(board.cells[i, j])
      ensures board.cells[r, c] != EMPTY <==> exists v :: SoleCandidate(r, c, v)
      ensures board.cells[r, c] != EMPTY ==> InRange(board.cells[r, c]) && SoleCandidate(r, c, Height(board.cells[r, c]))
      ensures OnlyNarrowed()
      ensures cellChanged <==> Live() != old(Live()) || Empty() != old(Empty())
    {
      var union := UnionOf(sequences, pos);
      cellChanged := DropUnsupported(r, c, union);
      var count, lastD := CountCandidates(r, c);
      if count == 1 {
        board.cells[r, c] := ('0' as int + lastD) as char;
        assert SoleCandidate(r, c, lastD) && Height(board.cells[r, c]) == lastD;
        cellChanged := true;
      }
      NarrowingShrinks();
      if !cellChanged {
        assert forall e :: 0 <= e < MAX_LENGTH ==> cand[r, c, e] == old(cand[r, c, e]);
      } else if count != 1 {
        ghost var e :| 0 <= e < MAX_LENGTH && old(cand[r, c, e]) && !cand[r, c, e];
        assert (r, c, e) !in Live();
      }
    }

    /** The union_possible loop: which heights some recorded sequence puts at pos. */
    method UnionOf(sequences: seq<seq<int>>, pos: int) returns (union: array<bool>)
      requires 0 <= pos
      requires forall k :: 0 <= k < |sequences| ==> pos < |sequences[k]| && 1 <= sequences[k][pos] <= MAX_LENGTH
      ensures fresh(union) && union.Length == MAX_LENGTH + 1
      ensures forall v :: 0 <= v <= MAX_LENGTH ==> (union[v] <==> v in UnionAt(sequences, pos))
    {
      union := new bool[MAX_LENGTH + 1](v => false);
      var s := 0;
      while s < |sequences|
        invariant 0 <= s <= |sequences|
        invariant forall v :: 0 <= v <= MAX_LENGTH ==> (union[v] <==> exists k :: 0 <= k < s && sequences[k][pos] == v)
      {
        union[sequences[s][pos]] := true;
        s := s + 1;
      }
    }

    /** The removal loop: every candidate of (r, c) in 1..size that is not in the union is dropped. */
    method DropUnsupported(r: int, c: int, union: array<bool>) returns (removed: bool)
      requires Valid() && 0 <= r < board.size && 0 <= c < board.size && union.Length == MAX_LENGTH + 1
      modifies cand
      ensures forall e :: 0 <= e < MAX_LENGTH ==> cand[r, c, e] == (old(cand[r, c, e]) && (e >= board.size || union[e + 1]))
      ensures forall i, j, e :: 0 <= i < MAX_LENGTH && 0 <= j < MAX_LENGTH && 0 <= e < MAX_LENGTH && (i != r || j != c) ==>
        cand[i, j, e] == old(cand[i, j, e])
      ensures removed <==> exists e :: 0 <= e < MAX_LENGTH && old(cand[r, c, e]) && !cand[r, c, e]
    {
      removed := false;
      var d := 1;
      while d <= board.size
        invariant 1 <= d <= board.size + 1
        invariant forall e :: 0 <= e < MAX_LENGTH ==> cand[r, c, e] == (old(cand[r, c, e]) && (e >= d - 1 || union[e + 1]))
        invariant forall i, j, e :: 0 <= i < MAX_LENGTH && 0 <= j < MAX_LENGTH && 0 <= e < MAX_LENGTH && (i != r || j != c) ==>
          cand[i, j, e] == old(cand[i, j, e])
        invariant removed <==> exists e :: 0 <= e < MAX_LENGTH && old(cand[r, c, e]) && !cand[r, c, e]
      {
        if cand[r, c, d - 1] && !union[d] {
          cand[r, c, d - 1] := false;
          removed := true;
        }
        d := d + 1;
      }
    }

    /** The counting loop: how many of heights 1..size are candidates of (r, c), and the last of them. */
    method CountCandidates(r: int, c: int) returns (count: int, lastD: int)
      requires Valid() && 0 <= r < board.size && 0 <= c < board.size
      ensures count == 1 <==> exists v :: SoleCandidate(r, c, v)
      ensures count == 1 ==> SoleCandidate(r, c, lastD)
    {
      count, lastD := 0, -1;
      var d := 1;
      while d <= board.size
        invariant 1 <= d <= board.size + 1
        invariant count == 0 <==> forall e :: 0 <= e < d - 1 ==> !cand[r, c, e]
        invariant count >= 1 ==> 1 <= lastD < d && cand[r, c, lastD - 1]
        invariant count >= 1 ==> forall e :: lastD - 1 < e < d - 1 ==> !cand[r, c, e]
        invariant count == 1 ==> forall e :: 0 <= e < d - 1 && cand[r, c, e] ==> e == lastD - 1
        invariant count >= 2 ==> exists e :: 0 <= e < lastD - 1 && cand[r, c, e]
      {
        if cand[r, c, d - 1] {
          count := count + 1;
          lastD := d;
        }
        d := d + 1;
      }
      if count >= 2 {
        ghost var e :| 0 <= e < lastD - 1 && cand[r, c, e];
        assert forall v :: SoleCandidate(r, c, v) ==> e == v - 1 == lastD - 1;
      }
      if count == 1 {
        assert SoleCandidate(r, c, lastD);
      }
    }

    /** How many of the first k cells of a line are empty. */
    function EmptiesBefore(horizontal: bool, idx: int, k: int): (n: nat)
      requires Valid() && 0 <= idx < board.size && 0 <= k <= board.size
      reads board.cells
      ensures n <= k
    {
      if k == 0 then 0
      else EmptiesBefore(horizontal, idx, k - 1) + (if LineChar(horizontal, idx, k - 1) == EMPTY then 1 else 0)
    }

    /** The number of empty cells of a line: the sort key of get_sorted_indices. */
    function Empties(horizontal: bool, idx: int): nat
      requires Valid() && 0 <= idx < board.size
      reads board.cells
    {
      EmptiesBefore(horizontal, idx, board.size)
    }

    /** The two counting loops of one comparison: the empty cells of lines x and y. */
    method CountPair(horizontal: bool, x: int, y: int) returns (countX: int, countY: int)
      requires Valid() && 0 <= x < board.size && 0 <= y < board.size
      ensures countX == Empties(horizontal, x) && countY == Empties(horizontal, y)
    {
      countX, countY := 0, 0;
      var k := 0;
      while k < board.size
        invariant 0 <= k <= board.size
        invariant countX == EmptiesBefore(horizontal, x, k) && countY == EmptiesBefore(horizontal, y, k)
      {
        if LineChar(horizontal, x, k) == EMPTY {
          countX := countX + 1;
        }
        if LineChar(horizontal, y, k) == EMPTY {
          countY := countY + 1;
        }
        k := k + 1;
      }
    }

    /**
     * get_sorted_indices: the lines 0 .. size - 1 in order of increasing
     * number of empty cells (an exchange sort, so lines with equal counts
     * are not kept in index order). The index array the caller passes in is
     * returned as a sequence.
     */
    method GetSortedIndices(horizontal: bool) returns (order: seq<int>)
      requires Valid()
      ensures |order| == board.size
      ensures forall k :: 0 <= k < |order| ==> 0 <= order[k] < board.size
      ensures multiset(order) == multiset(Indices(board.size))
      ensures forall k, m :: 0 <= k < m < |order| ==> Empties(horizontal, order[k]) <= Empties(horizontal, order[m])
    {
      var size := board.size;
      order := Indices(size);
      var i := 0;
      while i + 1 < size
        invariant 0 <= i <= size && |order| == size
        invariant forall k :: 0 <= k < size ==> 0 <= order[k] < size
        invariant multiset(order) == multiset(Indices(size))
        invariant forall k, m :: 0 <= k < i && k < m < size ==> Empties(horizontal, order[k]) <= Empties(horizontal, order[m])
      {
        order := SelectSmallest(horizontal, order, i);
        i := i + 1;
      }
    }

    /**
     * The inner loop of get_sorted_indices: position i ends up holding a line
     * with the fewest empty cells among positions i .. size - 1. Only
     * positions i .. size - 1 are exchanged, so what held between the lines
     * before i and those after still holds.
     */
    method SelectSmallest(horizontal: bool, order: seq<int>, i: int) returns (order': seq<int>)
      requires Valid() && |order| == board.size && 0 <= i < board.size
      requires forall k :: 0 <= k < |order| ==> 0 <= order[k] < board.size
      requires forall k, m :: 0 <= k < i && k < m < |order| ==> Empties(horizontal, order[k]) <= Empties(horizontal, order[m])
      ensures |order'| == |order| && order'[..i] == order[..i]
      ensures forall k :: 0 <= k < |order'| ==> 0 <= order'[k] < board.size
      ensures multiset(order') == multiset(order)
      ensures forall k, m :: 0 <= k <= i && k < m < |order'| ==> Empties(horizontal, order'[k]) <= Empties(horizontal, order'[m])
    {
      var size := board.size;
      order' := order;
      var j := i + 1;
      while j < size
        invariant i < j <= size && |order'| == size
        invariant order'[..i] == order[..i]
        invariant forall k :: 0 <= k < size ==> 0 <= order'[k] < size
        invariant multiset(order') == multiset(order)
        invariant forall k, m :: 0 <= k < i && k < m < size ==> Empties(horizontal, order'[k]) <= Empties(horizontal, order'[m])
        invariant forall m :: i < m < j ==> Empties(horizontal, order'[i]) <= Empties(horizontal, order'[m])
      {
        var countI, countJ := CountPair(horizontal, order'[i], order'[j]);
        if countJ < countI {
          order' := Swap(order', i, j);
        }
        j := j + 1;
      }
    }

    /**
     * Filtration of a list of lines, in the given order: candidates are only
     * removed, cells only filled, and each filled cell holds its one
     * candidate. The result says whether anything changed.
     */
    method FilterLines(horizontal: bool, order: seq<int>) returns (updated: bool)
      requires Valid() && Bounded() && CellsInRange()
      requires forall k :: 0 <= k < |order| ==> 0 <= order[k] < board.size
      modifies cand, board.cells
      ensures Bounded() && CellsInRange()
      ensures Live() <= old(Live()) && Empty() <= old(Empty())
      ensures updated <==> Live() != old(Live()) || Empty() != old(Empty())
      ensures forall i, j :: 0 <= i < MAX_LENGTH && 0 <= j < MAX_LENGTH && old(board.cells[i, j]) != EMPTY ==>
        board.cells[i, j] == old(board.cells[i, j]) && Cands(i, j) == old(Cands(i, j))
      ensures forall i, j :: 0 <= i < MAX_LENGTH && 0 <= j < MAX_LENGTH && old(board.cells[i, j]) == EMPTY ==> SoleIfFilled(i, j)
    {
      updated := false;
      var k := 0;
      while k < |order|
        invariant 0 <= k <= |order|
        invariant Bounded() && CellsInRange()
        invariant Live() <= old(Live()) && Empty() <= old(Empty())
        invariant updated <==> Live() != old(Live()) || Empty() != old(Empty())
        invariant forall i, j :: 0 <= i < MAX_LENGTH && 0 <= j < MAX_LENGTH && old(board.cells[i, j]) != EMPTY ==>
          board.cells[i, j] == old(board.cells[i, j]) && Cands(i, j) == old(Cands(i, j))
        invariant forall i, j :: 0 <= i < MAX_LENGTH && 0 <= j < MAX_LENGTH && old(board.cells[i, j]) == EMPTY ==> SoleIfFilled(i, j)
      {
        ghost var live, empty := Live(), Empty();
        var lineChanged;
        ghost var sequences;
        lineChanged, sequences := SequenceFiltrationLine(horizontal, order[k]);
        SubsetChain(old(Live()), live, Live());
        SubsetChain(old(Empty()), empty, Empty());
        updated := updated || lineChanged;
        k := k + 1;
      }
    }

    /**
     * apply_sequence_filtration_sorted: filtration of every row, fewest
     * empty cells first, then of every column, ordered by the board as the
     * rows left it.
     */
    method ApplyFiltrationPass() returns (updated: bool)
      requires Valid() && Bounded() && CellsInRange()
      modifies cand, board.cells
      ensures Bounded() && CellsInRange() && OnlyNarrowed()
      ensures Live() <= old(Live()) && Empty() <= old(Empty())
      ensures updated <==> Live() != old(Live()) || Empty() != old(Empty())
      ensures forall i, j :: 0 <= i < MAX_LENGTH && 0 <= j < MAX_LENGTH && old(board.cells[i, j]) != EMPTY ==>
        board.cells[i, j] == old(board.cells[i, j]) && Cands(i, j) == old(Cands(i, j))
      ensures forall i, j :: 0 <= i < MAX_LENGTH && 0 <= j < MAX_LENGTH && old(board.cells[i, j]) == EMPTY ==> SoleIfFilled(i, j)
    {
      var rows := GetSortedIndices(true);
      ghost var live, empty := Live(), Empty();
      var rowsChanged := FilterLines(true, rows);
      ghost var live', empty' := Live(), Empty();
      var cols := GetSortedIndices(false);
      var colsChanged := FilterLines(false, cols);
      SubsetChain(old(Live()), live', Live());
      SubsetChain(old(Empty()), empty', Empty());
      updated := rowsChanged || colsChanged;
      ShrinkingNarrows();
    }

    /** The candidate initialisation of solve for one cell. */
    method InitCell(i: int, j: int)
      requires Valid() && 0 <= i < board.size && 0 <= j < board.size
      modifies cand
      ensures forall d :: 0 <= d < MAX_LENGTH ==>
        cand[i, j, d] == if d < board.size then Initial(board.cells[i, j], d) else old(cand[i, j, d])
      ensures forall r, c, d :: 0 <= r < MAX_LENGTH && 0 <= c < MAX_LENGTH && 0 <= d < MAX_LENGTH && (r != i || c != j) ==>
        cand[r, c, d] == old(cand[r, c, d])
    {
      var d := 0;
      while d < board.size
        invariant 0 <= d <= board.size
        invariant forall e :: 0 <= e < MAX_LENGTH ==>
          cand[i, j, e] == if e < d then Initial(board.cells[i, j], e) else old(cand[i, j, e])
        invariant forall r, c, e :: 0 <= r < MAX_LENGTH && 0 <= c < MAX_LENGTH && 0 <= e < MAX_LENGTH && (r != i || c != j) ==>
          cand[r, c, e] == old(cand[r, c, e])
      {
        if board.cells[i, j] == EMPTY {
          cand[i, j, d] := true;
        } else {
          var val := Height(board.cells[i, j]);
          cand[i, j, d] := d == val - 1;
        }
        d := d + 1;
      }
    }

    /** The candidate initialisation of solve for the cells of row i. */
    method InitRow(i: int)
      requires Valid() && 0 <= i < board.size
      modifies cand
      ensures forall c, d :: 0 <= c < MAX_LENGTH && 0 <= d < MAX_LENGTH ==>
        cand[i, c, d] == if c < board.size && d < board.size then Initial(board.cells[i, c], d) else old(cand[i, c, d])
      ensures forall r, c, d :: 0 <= r < MAX_LENGTH && 0 <= c < MAX_LENGTH && 0 <= d < MAX_LENGTH && r != i ==>
        cand[r, c, d] == old(cand[r, c, d])
    {
      var j := 0;
      while j < board.size
        invariant 0 <= j <= board.size
        invariant forall c, d :: 0 <= c < MAX_LENGTH && 0 <= d < MAX_LENGTH ==>
          cand[i, c, d] == if c < j && d < board.size then Initial(board.cells[i, c], d) else old(cand[i, c, d])
        invariant forall r, c, d :: 0 <= r < MAX_LENGTH && 0 <= c < MAX_LENGTH && 0 <= d < MAX_LENGTH && r != i ==>
          cand[r, c, d] == old(cand[r, c, d])
      {
        InitCell(i, j);
        j := j + 1;
      }
    }

    /**
     * The candidate initialisation of solve: every height of the board is a
     * candidate of an empty cell, and a filled cell's only candidate is its
     * own height (none when that is 0 or above the board size).
     */
    method InitCandidates()
      requires Valid() && Bounded()
      modifies cand
      ensures Bounded()
      ensures forall r, c, d :: 0 <= r < MAX_LENGTH && 0 <= c < MAX_LENGTH && 0 <= d < MAX_LENGTH ==>
        cand[r, c, d] ==
          if r < board.size && c < board.size && d < board.size then Initial(board.cells[r, c], d) else old(cand[r, c, d])
      ensures forall r, c ::
        (0 <= r < board.size && 0 <= c < board.size && board.cells[r, c] != EMPTY && 1 <= Height(board.cells[r, c]) <= board.size) ==>
        SoleIfFilled(r, c)
    {
      var i := 0;
      while i < board.size
        invariant 0 <= i <= board.size
        invariant forall r, c, d :: 0 <= r < MAX_LENGTH && 0 <= c < MAX_LENGTH && 0 <= d < MAX_LENGTH ==>
          cand[r, c, d] ==
            if r < i && c < board.size && d < board.size then Initial(board.cells[r, c], d) else old(cand[r, c, d])
      {
        InitRow(i);
        i := i + 1;
      }
    }

    /** The innermost clue loop: heights lowerBound .. size are no longer candidates of (r, c). */
    method PruneCell(r: int, c: int, lowerBound: int)
      requires Valid() && 0 <= r < board.size && 0 <= c < board.size && 1 <= lowerBound
      modifies cand
      ensures forall e :: 0 <= e < MAX_LENGTH ==> cand[r, c, e] == (old(cand[r, c, e]) && !(lowerBound <= e + 1 <= board.size))
      ensures forall i, j, e :: 0 <= i < MAX_LENGTH && 0 <= j < MAX_LENGTH && 0 <= e < MAX_LENGTH && (i != r || j != c) ==>
        cand[i, j, e] == old(cand[i, j, e])
    {
      var v := lowerBound;
      while v <= board.size
        invariant lowerBound <= v <= Max(lowerBound, board.size + 1)
        invariant forall e :: 0 <= e < MAX_LENGTH ==> cand[r, c, e] == (old(cand[r, c, e]) && !(lowerBound <= e + 1 < v))
        invariant forall i, j, e :: 0 <= i < MAX_LENGTH && 0 <= j < MAX_LENGTH && 0 <= e < MAX_LENGTH && (i != r || j != c) ==>
          cand[i, j, e] == old(cand[i, j, e])
      {
        cand[r, c, v - 1] := false;
        v := v + 1;
      }
    }

    /** Height e + 1 is a candidate of the cell at position p of a line. */
    ghost predicate LineCand(horizontal: bool, idx: int, p: int, e: int)
      requires Valid() && 0 <= idx < board.size && 0 <= p < board.size && 0 <= e < MAX_LENGTH
      reads cand
    {
      var (r, c) := CellOf(horizontal, idx, p);
      cand[r, c, e]
    }

    /**
     * One clue of solve: when the clue at the start (or the end) of the line
     * is strictly between 1 and size, every empty cell of the line loses the
     * heights above what the clue leaves it; nothing else changes.
     */
    method PruneLine(horizontal: bool, idx: int, fromEnd: bool)
      requires Valid() && 0 <= idx < board.size
      modifies cand
      ensures forall p, e :: 0 <= p < board.size && 0 <= e < MAX_LENGTH ==>
        var clue := if fromEnd then ClueEnd(horizontal, idx) else ClueStart(horizontal, idx);
        LineCand(horizontal, idx, p, e) == (old(LineCand(horizontal, idx, p, e)) &&
          !(LineChar(horizontal, idx, p) == EMPTY && Cap(clue, board.size, Distance(fromEnd, board.size, p)) < e + 1 <= board.size))
      ensures forall i, j, e ::
        (0 <= i < MAX_LENGTH && 0 <= j < MAX_LENGTH && 0 <= e < MAX_LENGTH &&
         (!OnLine(horizontal, idx, i, j) || (if horizontal then j else i) >= board.size)) ==>
        cand[i, j, e] == old(cand[i, j, e])
    {
      var size := board.size;
      var clue := if fromEnd then ClueEnd(horizontal, idx) else ClueStart(horizontal, idx);
      if clue > 1 && clue < size {
        var d := 0;
        while d < size
          invariant 0 <= d <= size
          invariant forall p, e :: 0 <= p < size && 0 <= e < MAX_LENGTH ==>
            LineCand(horizontal, idx, p, e) == (old(LineCand(horizontal, idx, p, e)) &&
              !(Distance(fromEnd, size, p) < d && LineChar(horizontal, idx, p) == EMPTY &&
                Cap(clue, size, Distance(fromEnd, size, p)) < e + 1 <= size))
          invariant forall i, j, e ::
            (0 <= i < MAX_LENGTH && 0 <= j < MAX_LENGTH && 0 <= e < MAX_LENGTH &&
             (!OnLine(horizontal, idx, i, j) || (if horizontal then j else i) >= size)) ==>
            cand[i, j, e] == old(cand[i, j, e])
        {
          var pos := if fromEnd then size - 1 - d else d;
          var (r, c) := CellOf(horizontal, idx, pos);
          if board.cells[r, c] == EMPTY {
            var lowerBound := size - clue + 2 + d;
            PruneCell(r, c, lowerBound);
          }
          d := d + 1;
        }
      }
    }

    /** The clues of column j: the top clue, then the bottom clue. */
    method PruneColumn(j: int)
      requires Valid() && 0 <= j < board.size
      modifies cand
      ensures forall i, e :: 0 <= i < MAX_LENGTH && 0 <= e < MAX_LENGTH ==>
        cand[i, j, e] == (old(cand[i, j, e]) && !(i < board.size && board.cells[i, j] == EMPTY && e + 1 <= board.size &&
          (e + 1 > Cap(board.topKey[j], board.size, i) || e + 1 > Cap(board.bottomKey[j], board.size, board.size - 1 - i))))
      ensures forall i, c, e :: 0 <= i < MAX_LENGTH && 0 <= c < MAX_LENGTH && 0 <= e < MAX_LENGTH && c != j ==>
        cand[i, c, e] == old(cand[i, c, e])
    {
      PruneLine(false, j, false);
      label Top:
      PruneLine(false, j, true);
      forall i, e | 0 <= i < board.size && 0 <= e < MAX_LENGTH
        ensures cand[i, j, e] == (old(cand[i, j, e]) && !(board.cells[i, j] == EMPTY && e + 1 <= board.size &&
          (e + 1 > Cap(board.topKey[j], board.size, i) || e + 1 > Cap(board.bottomKey[j], board.size, board.size - 1 - i))))
      {
        assert LineCand(false, j, i, e) == cand[i, j, e];
        assert old@Top(LineCand(false, j, i, e)) == old@Top(cand[i, j, e]);
        assert old(LineCand(false, j, i, e)) == old(cand[i, j, e]);
      }
    }

    /** The clues of row i: the left clue, then the right clue. */
    method PruneRow(i: int)
      requires Valid() && 0 <= i < board.size
      modifies cand
      ensures forall j, e :: 0 <= j < MAX_LENGTH && 0 <= e < MAX_LENGTH ==>
        cand[i, j, e] == (old(cand[i, j, e]) && !(j < board.size && board.cells[i, j] == EMPTY && e + 1 <= board.size &&
          (e + 1 > Cap(board.leftKey[i], board.size, j) || e + 1 > Cap(board.rightKey[i], board.size, board.size - 1 - j))))
      ensures forall r, j, e :: 0 <= r < MAX_LENGTH && 0 <= j < MAX_LENGTH && 0 <= e < MAX_LENGTH && r != i ==>
        cand[r, j, e] == old(cand[r, j, e])
    {
      PruneLine(true, i, false);
      label Left:
      PruneLine(true, i, true);
      forall j, e | 0 <= j < board.size && 0 <= e < MAX_LENGTH
        ensures cand[i, j, e] == (old(cand[i, j, e]) && !(board.cells[i, j] == EMPTY && e + 1 <= board.size &&
          (e + 1 > Cap(board.leftKey[i], board.size, j) || e + 1 > Cap(board.rightKey[i], board.size, board.size - 1 - j))))
      {
        assert LineCand(true, i, j, e) == cand[i, j, e];
        assert old@Left(LineCand(true, i, j, e)) == old@Left(cand[i, j, e]);
        assert old(LineCand(true, i, j, e)) == old(cand[i, j, e]);
      }
    }

    /** Height v is above what one of the four clues of (i, j) leaves to it. */
    ghost predicate ClueExcludes(i: int, j: int, v: int)
      requires Valid() && 0 <= i < board.size && 0 <= j < board.size
      reads board.topKey, board.bottomKey, board.leftKey, board.rightKey
    {
      var size := board.size;
      || v > Cap(board.topKey[j], size, i) || v > Cap(board.bottomKey[j], size, size - 1 - i)
      || v > Cap(board.leftKey[i], size, j) || v > Cap(board.rightKey[i], size, size - 1 - j)
    }

    /**
     * The clue loops of solve: every empty cell loses the heights up to size
     * that one of its four clues rules out; nothing else changes.
     */
    method ApplyClues()
      requires Valid()
      modifies cand
      ensures forall i, j, e :: 0 <= i < MAX_LENGTH && 0 <= j < MAX_LENGTH && 0 <= e < MAX_LENGTH ==>
        cand[i, j, e] == (old(cand[i, j, e]) &&
          !(i < board.size && j < board.size && board.cells[i, j] == EMPTY && e + 1 <= board.size && ClueExcludes(i, j, e + 1)))
    {
      var size := board.size;
      var j := 0;
      while j < size
        invariant 0 <= j <= size
        invariant forall i, c, e :: 0 <= i < MAX_LENGTH && 0 <= c < MAX_LENGTH && 0 <= e < MAX_LENGTH ==>
          cand[i, c, e] == (old(cand[i, c, e]) && !(i < size && c < j && board.cells[i, c] == EMPTY && e + 1 <= size &&
            (e + 1 > Cap(board.topKey[c], size, i) || e + 1 > Cap(board.bottomKey[c], size, size - 1 - i))))
      {
        PruneColumn(j);
        j := j + 1;
      }
      label Columns:
      var i := 0;
      while i < size
        invariant 0 <= i <= size
        invariant forall r, c, e :: 0 <= r < MAX_LENGTH && 0 <= c < MAX_LENGTH && 0 <= e < MAX_LENGTH ==>
          cand[r, c, e] == (old@Columns(cand[r, c, e]) && !(r < i && c < size && board.cells[r, c] == EMPTY && e + 1 <= size &&
            (e + 1 > Cap(board.leftKey[r], size, c) || e + 1 > Cap(board.rightKey[r], size, size - 1 - c))))
      {
        PruneRow(i);
        i := i + 1;
      }
    }

    /**
     * The propagation of solve: candidates from the board, the clue caps,
     * then filtration passes until a pass changes nothing (the do-while,
     * which always runs once). Each pass removes a candidate or fills a
     * cell, so the loop ends. Given cells are never changed, and every cell
     * the solver fills holds the one candidate left to it.
     */
    method Propagate()
      requires Valid() && Bounded() && CellsInRange()
      modifies cand, board.cells
      ensures Bounded() && CellsInRange()
      ensures forall i, j :: 0 <= i < MAX_LENGTH && 0 <= j < MAX_LENGTH && old(board.cells[i, j]) != EMPTY ==>
        board.cells[i, j] == old(board.cells[i, j])
      ensures forall i, j :: 0 <= i < MAX_LENGTH && 0 <= j < MAX_LENGTH && old(board.cells[i, j]) == EMPTY ==> SoleIfFilled(i, j)
    {
      InitCandidates();
      ApplyClues();
      var updated := true;
      while updated
        invariant Bounded() && CellsInRange()
        invariant forall i, j :: 0 <= i < MAX_LENGTH && 0 <= j < MAX_LENGTH && old(board.cells[i, j]) != EMPTY ==>
          board.cells[i, j] == old(board.cells[i, j])
        invariant forall i, j :: 0 <= i < MAX_LENGTH && 0 <= j < MAX_LENGTH && old(board.cells[i, j]) == EMPTY ==> SoleIfFilled(i, j)
        decreases Live(), Empty(), if updated then 1 else 0
      {
        updated := ApplyFiltrationPass();
      }
    }

    /**
     * solve: an initial board that breaks a rule is refused and left as
     * loaded; otherwise the given cells stay and every cell the solver fills
     * holds the one candidate left to it.
     */
    method Solve(initialState: seq<char>, keys: seq<char>) returns (ok: bool)
      requires Valid() && Bounded()
      requires |initialState| >= board.size * board.size && |keys| >= 4 * board.size
      requires forall k :: 0 <= k < board.size * board.size ==> InRange(initialState[k])
      modifies board.cells, board.topKey, board.bottomKey, board.leftKey, board.rightKey, cand
      ensures forall i :: 0 <= i < MAX_LENGTH ==>
        board.topKey[i] == if i < board.size then Height(keys[i]) else old(board.topKey[i])
      ensures forall i :: 0 <= i < MAX_LENGTH ==>
        board.bottomKey[i] == if i < board.size then Height(keys[board.size + i]) else old(board.bottomKey[i])
      ensures forall i :: 0 <= i < MAX_LENGTH ==>
        board.leftKey[i] == if i < board.size then Height(keys[2 * board.size + i]) else old(board.leftKey[i])
      ensures forall i :: 0 <= i < MAX_LENGTH ==>
        board.rightKey[i] == if i < board.size then Height(keys[3 * board.size + i]) else old(board.rightKey[i])
      ensures !ok ==> !board.Consistent() && unchanged(cand)
      ensures !ok ==> forall i, j :: 0 <= i < board.size && 0 <= j < board.size ==>
        board.cells[i, j] == StateAt(initialState, board.size, i, j)
      ensures ok ==> Bounded() && CellsInRange()
      ensures ok ==> forall i, j :: 0 <= i < board.size && 0 <= j < board.size ==>
        if StateAt(initialState, board.size, i, j) != EMPTY then board.cells[i, j] == StateAt(initialState, board.size, i, j)
        else SoleIfFilled(i, j)
    {
      ok := board.InitializeBoard(initialState, keys);
      if !ok {
        return;
      }
      forall i, j | 0 <= i < board.size && 0 <= j < board.size ensures InRange(board.cells[i, j]) {
        RowMajorInRange(i, j, board.size);
      }
      Propagate();
    }
  }
}
