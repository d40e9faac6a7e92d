/** The line processor of the engine: zero removal (compaction) and the
    single left-to-right merge pass, as pure functions on one line.
    The engine's methods `RemoveZero` and `Merge` are proved against
    `Compact` and `Merge` below. */
module Lines {

  /** The non-zero entries of `s`, in their original order. */
  function Nonzeros(s: seq<int>): (r: seq<int>)
    ensures |r| <= |s|
  {
    if s == [] then [] else (if s[0] != 0 then [s[0]] else []) + Nonzeros(s[1..])
  }

  function Zeros(k: nat): seq<int>
  {
    seq(k, _ => 0)
  }

  function Sum(s: seq<int>): int
  {
    if s == [] then 0 else s[0] + Sum(s[1..])
  }

  function Reverse(s: seq<int>): (r: seq<int>)
    ensures |r| == |s|
  {
    seq(|s|, i requires 0 <= i < |s| => s[|s| - 1 - i])
  }

  function Max(a: int, b: int): int
  {
    if a < b then b else a
  }

  /** Zeros only at the end: once a zero occurs, every later entry is zero. */
  ghost predicate Packed(s: seq<int>)
  {
    forall i, j :: 0 <= i < j < |s| && s[i] == 0 ==> s[j] == 0
  }

  /** No two neighbours are equal and non-zero, so the merge pass has
      nothing to do. */
  ghost predicate NoEqualNeighbours(s: seq<int>)
  {
    forall j :: 0 <= j < |s| - 1 ==> !(s[j] != 0 && s[j] == s[j + 1])
  }

  /** `removeZero`: a fresh line of `n` zeros into which the non-zero
      entries are written from the left. A JavaScript array grows when
      written past its end, so more than `n` non-zero entries give a
      longer line. */
  function Compact(s: seq<int>, n: nat): seq<int>
  {
    var nz := Nonzeros(s);
    if |nz| <= n then nz + Zeros(n - |nz|) else nz
  }

  /** Result of the single merge pass: the line after the pass (before
      re-compaction), the indices where a merge happened, and the value
      each merge produced. */
  datatype Pass = Pass(line: seq<int>, at: seq<nat>, values: seq<int>)

  function Shift(xs: seq<nat>, k: nat): seq<nat>
  {
    seq(|xs|, i requires 0 <= i < |xs| => xs[i] + k)
  }

  lemma ShiftAt(xs: seq<nat>, k: nat, i: nat)
    requires i < |xs|
    ensures |Shift(xs, k)| == |xs| && Shift(xs, k)[i] == xs[i] + k
  {
  }

  /** The left-to-right pass of `merge`: a non-zero cell equal to its right
      neighbour is doubled, the neighbour is zeroed, and the scan goes on
      past the zeroed neighbour, so a freshly doubled cell never merges
      again. */
  function SinglePass(p: seq<int>): (r: Pass)
    ensures |r.line| == |p| && |r.at| == |r.values|
  {
    if |p| < 2 then Pass(p, [], [])
    else if p[0] != 0 && p[0] == p[1] then
      var rest := SinglePass(p[2..]);
      Pass([p[0] + p[0], 0] + rest.line, [0] + Shift(rest.at, 2), [p[0] + p[0]] + rest.values)
    else
      var rest := SinglePass(p[1..]);
      Pass([p[0]] + rest.line, Shift(rest.at, 1), rest.values)
  }

  /** Result of `merge` on one line: the final line, the merge indices the
      engine reports, and the values the merges produced (which drive the
      score). */
  datatype MergeResult = MergeResult(line: seq<int>, changed: seq<nat>, values: seq<int>)

  /** `merge`: compact, one merge pass, compact again. The reported indices
      are those of the pass, i.e. positions in the once-compacted line. */
  function Merge(l: seq<int>, n: nat): (r: MergeResult)
    ensures |r.changed| == |r.values|
  {
    var pass := SinglePass(Compact(l, n));
    MergeResult(Compact(pass.line, n), pass.at, pass.values)
  }

  /** The score after merges producing `vs`, starting from `c`: each merge
      raises the score to the produced value when that is larger. */
  function MaxWith(c: int, vs: seq<int>): int
    decreases vs
  {
    if vs == [] then c else MaxWith(Max(c, vs[0]), vs[1..])
  }

  /** The score after merges is at least the starting score and every
      merged value, and it is one of them. */
  lemma {:induction false} MaxWithBounds(c: int, vs: seq<int>)
    ensures MaxWith(c, vs) >= c
    ensures forall k :: 0 <= k < |vs| ==> MaxWith(c, vs) >= vs[k]
    ensures MaxWith(c, vs) == c || exists k :: 0 <= k < |vs| && MaxWith(c, vs) == vs[k]
    decreases vs
  {
    if vs != [] {
      MaxWithBounds(Max(c, vs[0]), vs[1..]);
      if MaxWith(c, vs) != c && MaxWith(c, vs) != vs[0] {
        var k :| 0 <= k < |vs[1..]| && MaxWith(c, vs) == vs[1..][k];
        assert MaxWith(c, vs) == vs[k + 1];
      }
    }
  }

  /** A merge touched position `j`: `j` was doubled or was the zeroed partner. */
  ghost predicate Touched(at: seq<nat>, j: int)
  {
    exists k :: 0 <= k < |at| && (at[k] == j || at[k] + 1 == j)
  }

  // ---------------------------------------------------------------------
  // Helper facts about Nonzeros and Sum

  lemma {:induction false} NonzerosAppend(a: seq<int>, b: seq<int>)
    ensures Nonzeros(a + b) == Nonzeros(a) + Nonzeros(b)
  {
    if a == [] {
      assert a + b == b;
    } else {
      assert (a + b)[1..] == a[1..] + b;
      NonzerosAppend(a[1..], b);
    }
  }

  lemma {:induction false} NonzerosAreNonzero(s: seq<int>)
    ensures forall i :: 0 <= i < |Nonzeros(s)| ==> Nonzeros(s)[i] != 0
  {
    if s != [] {
      NonzerosAreNonzero(s[1..]);
    }
  }

  lemma NonzerosCons(x: int, s: seq<int>)
    requires x != 0
    ensures Nonzeros([x] + s) == [x] + Nonzeros(s)
  {
    assert ([x] + s)[1..] == s;
  }

  lemma PairCons(a: int, b: int, s: seq<int>)
    ensures [a, b] + s == [a] + ([b] + s)
  {
  }

  lemma NonzerosConsZero(s: seq<int>)
    ensures Nonzeros([0] + s) == Nonzeros(s)
  {
    assert ([0] + s)[1..] == s;
  }

  lemma {:induction false} NonzerosOfZeros(k: nat)
    ensures Nonzeros(Zeros(k)) == []
  {
    if k > 0 {
      assert Zeros(k)[1..] == Zeros(k - 1);
      NonzerosOfZeros(k - 1);
    }
  }

  lemma {:induction false} NonzerosOfNonzeros(s: seq<int>)
    requires forall i :: 0 <= i < |s| ==> s[i] != 0
    ensures Nonzeros(s) == s
  {
    if s != [] {
      NonzerosOfNonzeros(s[1..]);
    }
  }

  lemma {:induction false} SumAppend(a: seq<int>, b: seq<int>)
    ensures Sum(a + b) == Sum(a) + Sum(b)
  {
    if a == [] {
      assert a + b == b;
    } else {
      assert (a + b)[1..] == a[1..] + b;
      SumAppend(a[1..], b);
    }
  }

  lemma {:induction false} SumOfZeros(k: nat)
    ensures Sum(Zeros(k)) == 0
  {
    if k > 0 {
      assert Zeros(k)[1..] == Zeros(k - 1);
      SumOfZeros(k - 1);
    }
  }

  lemma {:induction false} SumOfNonzeros(s: seq<int>)
    ensures Sum(Nonzeros(s)) == Sum(s)
  {
    if s != [] {
      SumOfNonzeros(s[1..]);
      SumAppend(if s[0] != 0 then [s[0]] else [], Nonzeros(s[1..]));
    }
  }

  // ---------------------------------------------------------------------
  // Compaction

  /** `removeZero` keeps exactly the non-zero entries, in order, packed to
      the left, pads with zeros to `n`, and preserves the sum. */
  lemma CompactSpec(s: seq<int>, n: nat)
    ensures && |Compact(s, n)| == Max(n, |Nonzeros(s)|)
      && Compact(s, n)[..|Nonzeros(s)|] == Nonzeros(s)
      && (forall i :: |Nonzeros(s)| <= i < |Compact(s, n)| ==> Compact(s, n)[i] == 0)
      && Packed(Compact(s, n))
      && Nonzeros(Compact(s, n)) == Nonzeros(s)
      && Sum(Compact(s, n)) == Sum(s)
  {
    var nz := Nonzeros(s);
    NonzerosAreNonzero(s);
    SumOfNonzeros(s);
    var k := if |nz| <= n then n - |nz| else 0;
    assert Compact(s, n) == nz + Zeros(k);
    PadSpec(nz, k);
  }

  /** A line of non-zero entries padded with `k` zeros: its prefix is the
      line, the padding is zero, it is packed, and its non-zero entries and
      its sum are those of the line. */
  lemma PadSpec(nz: seq<int>, k: nat)
    requires forall i :: 0 <= i < |nz| ==> nz[i] != 0
    ensures (nz + Zeros(k))[..|nz|] == nz
    ensures forall i :: |nz| <= i < |nz| + k ==> (nz + Zeros(k))[i] == 0
    ensures Packed(nz + Zeros(k))
    ensures Nonzeros(nz + Zeros(k)) == nz
    ensures Sum(nz + Zeros(k)) == Sum(nz)
  {
    var r := nz + Zeros(k);
    assert r[..|nz|] == nz;
    forall i, j | 0 <= i < j < |r| && r[i] == 0 ensures r[j] == 0 {
      assert i >= |nz|;
    }
    NonzerosAppend(nz, Zeros(k));
    NonzerosOfZeros(k);
    NonzerosOfNonzeros(nz);
    SumAppend(nz, Zeros(k));
    SumOfZeros(k);
  }


  /** Compaction of a line without zeros is the line itself, when it fits. */
  lemma CompactFull(s: seq<int>, n: nat)
    requires |s| == n && forall i :: 0 <= i < |s| ==> s[i] != 0
    ensures Compact(s, n) == s
  {
    NonzerosOfNonzeros(s);
    assert Nonzeros(s) + Zeros(0) == s;
  }

  // ---------------------------------------------------------------------
  // The single merge pass

  lemma ShiftAppendOne(xs: seq<nat>, i: nat)
    ensures Shift([0] + Shift(xs, 2), i) == [i] + Shift(xs, i + 2)
    ensures Shift(Shift(xs, 1), i) == Shift(xs, i + 1)
  {
    assert Shift([0] + Shift(xs, 2), i)[0] == i;
  }

  /** Unfolding the pass at a head position where no merge happens. */
  lemma SinglePassNoMergeHead(p: seq<int>)
    requires |p| >= 1 && !(|p| >= 2 && p[0] != 0 && p[0] == p[1])
    ensures SinglePass(p) == Pass([p[0]] + SinglePass(p[1..]).line, Shift(SinglePass(p[1..]).at, 1), SinglePass(p[1..]).values)
  {
    if |p| == 1 {
      assert p[1..] == [];
      assert [p[0]] + [] == p;
    }
  }

  /** One merged pair: the `k`-th reported index `i` had equal non-zero
      values at `i` and `i + 1`; the pass doubled `i`, zeroed `i + 1`, and
      the next reported index is at least two further on. */
  lemma {:induction false} SinglePassAt(p: seq<int>, k: nat)
    requires k < |SinglePass(p).at|
    ensures SinglePass(p).at[k] + 1 < |p|
    ensures p[SinglePass(p).at[k]] != 0 && p[SinglePass(p).at[k]] == p[SinglePass(p).at[k] + 1]
    ensures SinglePass(p).line[SinglePass(p).at[k]] == p[SinglePass(p).at[k]] + p[SinglePass(p).at[k]]
    ensures SinglePass(p).line[SinglePass(p).at[k] + 1] == 0
    ensures SinglePass(p).values[k] == SinglePass(p).line[SinglePass(p).at[k]]
    ensures k + 1 < |SinglePass(p).at| ==> SinglePass(p).at[k] + 2 <= SinglePass(p).at[k + 1]
  {
    var r := SinglePass(p);
    if p[0] != 0 && p[0] == p[1] {
      var q := p[2..];
      var rest := SinglePass(q);
      assert r.line == [p[0] + p[0], 0] + rest.line;
      assert r.at == [0] + Shift(rest.at, 2);
      assert r.values == [p[0] + p[0]] + rest.values;
      if k > 0 {
        SinglePassAt(q, k - 1);
        var i := rest.at[k - 1];
        assert r.at[k] == i + 2;
        assert p[i + 2] == q[i] && p[i + 3] == q[i + 1];
        assert r.line[i + 2] == rest.line[i] && r.line[i + 3] == rest.line[i + 1];
        assert r.values[k] == rest.values[k - 1];
        if k + 1 < |r.at| {
          assert r.at[k + 1] == rest.at[k] + 2;
        }
      } else if 1 < |r.at| {
        assert r.at[1] == rest.at[0] + 2;
      }
    } else {
      var q := p[1..];
      var rest := SinglePass(q);
      assert r.line == [p[0]] + rest.line;
      assert r.at == Shift(rest.at, 1);
      assert r.values == rest.values;
      SinglePassAt(q, k);
      var i := rest.at[k];
      assert r.at[k] == i + 1;
      assert p[i + 1] == q[i] && p[i + 2] == q[i + 1];
      assert r.line[i + 1] == rest.line[i] && r.line[i + 2] == rest.line[i + 1];
      if k + 1 < |r.at| {
        assert r.at[k + 1] == rest.at[k + 1] + 1;
      }
    }
  }

  /** The pass changes no cell that no merge touched. */
  lemma {:induction false} SinglePassFrame(p: seq<int>)
    ensures forall j :: 0 <= j < |p| && SinglePass(p).line[j] != p[j] ==> Touched(SinglePass(p).at, j)
  {
    var r := SinglePass(p);
    if |p| < 2 {
    } else if p[0] != 0 && p[0] == p[1] {
      var q := p[2..];
      var rest := SinglePass(q);
      SinglePassFrame(q);
      assert r == Pass([p[0] + p[0], 0] + rest.line, [0] + Shift(rest.at, 2), [p[0] + p[0]] + rest.values);
      forall j | 0 <= j < |p| && r.line[j] != p[j] ensures Touched(r.at, j) {
        if j < 2 {
          assert r.at[0] == 0;
        } else {
          assert r.line[j] == rest.line[j - 2] && p[j] == q[j - 2];
          assert Touched(rest.at, j - 2);
          var k :| 0 <= k < |rest.at| && (rest.at[k] == j - 2 || rest.at[k] + 1 == j - 2);
          assert r.at[k + 1] == rest.at[k] + 2;
        }
      }
    } else {
      var q := p[1..];
      var rest := SinglePass(q);
      SinglePassFrame(q);
      assert r == Pass([p[0]] + rest.line, Shift(rest.at, 1), rest.values);
      forall j | 0 <= j < |p| && r.line[j] != p[j] ensures Touched(r.at, j) {
        assert j >= 1;
        assert r.line[j] == rest.line[j - 1] && p[j] == q[j - 1];
        assert Touched(rest.at, j - 1);
        var k :| 0 <= k < |rest.at| && (rest.at[k] == j - 1 || rest.at[k] + 1 == j - 1);
        assert r.at[k] == rest.at[k] + 1;
      }
    }
  }

  /** The pass is greedy: every position holding a non-zero value equal to
      its right neighbour was either merged or was the partner of a merge
      just before it. */
  lemma {:induction false} SinglePassGreedy(p: seq<int>)
    ensures forall j :: 0 <= j < |p| - 1 && p[j] != 0 && p[j] == p[j + 1] ==> Touched(SinglePass(p).at, j)
  {
    var r := SinglePass(p);
    if |p| < 2 {
    } else if p[0] != 0 && p[0] == p[1] {
      var rest := SinglePass(p[2..]);
      SinglePassGreedy(p[2..]);
      forall j | 0 <= j < |p| - 1 && p[j] != 0 && p[j] == p[j + 1] ensures Touched(r.at, j) {
        if j < 2 {
          assert r.at[0] == 0;
        } else {
          assert p[2..][j - 2] == p[j] && p[2..][j - 1] == p[j + 1];
          var k :| 0 <= k < |rest.at| && (rest.at[k] == j - 2 || rest.at[k] + 1 == j - 2);
          assert r.at[k + 1] == rest.at[k] + 2;
        }
      }
    } else {
      var rest := SinglePass(p[1..]);
      SinglePassGreedy(p[1..]);
      forall j | 0 <= j < |p| - 1 && p[j] != 0 && p[j] == p[j + 1] ensures Touched(r.at, j) {
        assert j >= 1;
        assert p[1..][j - 1] == p[j] && p[1..][j] == p[j + 1];
        var k :| 0 <= k < |rest.at| && (rest.at[k] == j - 1 || rest.at[k] + 1 == j - 1);
        assert r.at[k] == rest.at[k] + 1;
      }
    }
  }

  /** The pass preserves the sum, and every merge removes exactly one
      non-zero cell. */
  lemma {:induction false} SinglePassConserves(p: seq<int>)
    ensures Sum(SinglePass(p).line) == Sum(p) && |Nonzeros(SinglePass(p).line)| == |Nonzeros(p)| - |SinglePass(p).at|
  {
    var r := SinglePass(p);
    if |p| < 2 {
    } else if p[0] != 0 && p[0] == p[1] {
      var rest := SinglePass(p[2..]);
      SinglePassConserves(p[2..]);
      assert r.line[1..][1..] == rest.line;
      assert p[1..][1..] == p[2..];
    } else {
      SinglePassConserves(p[1..]);
      assert r.line[1..] == SinglePass(p[1..]).line;
    }
  }

  /** When no two neighbours are equal and non-zero, the pass changes nothing. */
  lemma {:induction false} SinglePassIdentity(p: seq<int>)
    requires NoEqualNeighbours(p)
    ensures SinglePass(p) == Pass(p, [], [])
  {
    if |p| >= 2 {
      assert !(p[0] != 0 && p[0] == p[1]);
      assert NoEqualNeighbours(p[1..]) by {
        forall j | 0 <= j < |p[1..]| - 1 ensures !(p[1..][j] != 0 && p[1..][j] == p[1..][j + 1]) {
          assert p[1..][j] == p[j + 1] && p[1..][j + 1] == p[j + 2];
        }
      }
      SinglePassIdentity(p[1..]);
      assert [p[0]] + p[1..] == p;
    }
  }

  /** The pass reports no merge exactly when no two neighbours are equal and
      non-zero. */
  lemma SinglePassNoMergeIff(p: seq<int>)
    ensures SinglePass(p).at == [] <==> NoEqualNeighbours(p)
  {
    var r := SinglePass(p);
    if NoEqualNeighbours(p) {
      SinglePassIdentity(p);
    } else {
      var j :| 0 <= j < |p| - 1 && p[j] != 0 && p[j] == p[j + 1];
      SinglePassGreedy(p);
      assert Touched(r.at, j);
    }
  }

  /** On a packed line, the `k`-th merged value ends up at position
      `at[k] - k` among the non-zero entries: each earlier merge left one
      zeroed partner before it. */
  lemma {:induction false} SinglePassFinalPosition(p: seq<int>, k: nat)
    requires Packed(p) && k < |SinglePass(p).at|
    ensures k <= SinglePass(p).at[k]
    ensures SinglePass(p).at[k] - k < |Nonzeros(SinglePass(p).line)|
    ensures Nonzeros(SinglePass(p).line)[SinglePass(p).at[k] - k] == SinglePass(p).values[k]
    decreases |p|, 1
  {
    if p[0] == 0 {
      SinglePassAt(p, 0);
      assert false;
    } else if p[0] == p[1] {
      FinalPositionMerged(p, k);
    } else {
      FinalPositionKept(p, k);
    }
  }

  /** The case of `SinglePassFinalPosition` where the head merges. */
  lemma {:induction false} FinalPositionMerged(p: seq<int>, k: nat)
    requires Packed(p) && k < |SinglePass(p).at| && |p| >= 2 && p[0] != 0 && p[0] == p[1]
    ensures k <= SinglePass(p).at[k]
    ensures SinglePass(p).at[k] - k < |Nonzeros(SinglePass(p).line)|
    ensures Nonzeros(SinglePass(p).line)[SinglePass(p).at[k] - k] == SinglePass(p).values[k]
    decreases |p|, 0
  {
    var r := SinglePass(p);
    var rest := SinglePass(p[2..]);
    assert r == Pass([p[0] + p[0], 0] + rest.line, [0] + Shift(rest.at, 2), [p[0] + p[0]] + rest.values);
    if k > 0 {
      PackedTail(p, 2);
      SinglePassFinalPosition(p[2..], k - 1);
    }
    MergedHeadPosition(r.line, r.at, r.values, rest.line, rest.at, rest.values, p[0] + p[0], k);
  }

  /** The case of `SinglePassFinalPosition` where the non-zero head is kept. */
  lemma {:induction false} FinalPositionKept(p: seq<int>, k: nat)
    requires Packed(p) && k < |SinglePass(p).at| && |p| >= 2 && p[0] != 0 && p[0] != p[1]
    ensures k <= SinglePass(p).at[k]
    ensures SinglePass(p).at[k] - k < |Nonzeros(SinglePass(p).line)|
    ensures Nonzeros(SinglePass(p).line)[SinglePass(p).at[k] - k] == SinglePass(p).values[k]
    decreases |p|, 0
  {
    var r := SinglePass(p);
    var rest := SinglePass(p[1..]);
    assert r == Pass([p[0]] + rest.line, Shift(rest.at, 1), rest.values);
    PackedTail(p, 1);
    SinglePassFinalPosition(p[1..], k);
    KeptHeadPosition(r.line, r.at, r.values, rest.line, rest.at, rest.values, p[0], k);
  }

  /** The step of `SinglePassFinalPosition` at a head that merged into `a`:
      the head contributes one non-zero entry and two positions. */
  lemma MergedHeadPosition(line: seq<int>, at: seq<nat>, values: seq<int>,
                           restLine: seq<int>, restAt: seq<nat>, restValues: seq<int>, a: int, k: nat)
    requires a != 0 && |restAt| == |restValues|
    requires line == [a, 0] + restLine && at == [0] + Shift(restAt, 2) && values == [a] + restValues
    requires k < |at|
    requires k > 0 ==> (k - 1 <= restAt[k - 1] && restAt[k - 1] - (k - 1) < |Nonzeros(restLine)|
      && Nonzeros(restLine)[restAt[k - 1] - (k - 1)] == restValues[k - 1])
    ensures k <= at[k] && at[k] - k < |Nonzeros(line)| && Nonzeros(line)[at[k] - k] == values[k]
  {
    NonzerosPair(a, restLine);
    var nz := Nonzeros(line);
    if k == 0 {
      assert at[0] == 0 && values[0] == a && nz[0] == a;
    } else {
      PairHeadAt(at, values, restAt, restValues, a, k);
      var x := restAt[k - 1] - (k - 1);
      assert nz[x + 1] == Nonzeros(restLine)[x];
    }
  }

  /** Reading the `k`-th merge of a line whose head merged. */
  lemma PairHeadAt(at: seq<nat>, values: seq<int>, restAt: seq<nat>, restValues: seq<int>, a: int, k: nat)
    requires at == [0] + Shift(restAt, 2) && values == [a] + restValues && 0 < k < |at| && |restAt| == |restValues|
    ensures at[k] == restAt[k - 1] + 2 && values[k] == restValues[k - 1]
  {
    ShiftAt(restAt, 2, k - 1);
  }

  /** The non-zero entries of a line that starts with a merged pair. */
  lemma NonzerosPair(a: int, s: seq<int>)
    requires a != 0
    ensures Nonzeros([a, 0] + s) == [a] + Nonzeros(s)
  {
    PairCons(a, 0, s);
    NonzerosConsZero(s);
    NonzerosCons(a, [0] + s);
  }

  /** The step of `SinglePassFinalPosition` at a non-zero head that did not
      merge: it contributes one non-zero entry and one position. */
  lemma KeptHeadPosition(line: seq<int>, at: seq<nat>, values: seq<int>,
                         restLine: seq<int>, restAt: seq<nat>, restValues: seq<int>, a: int, k: nat)
    requires a != 0 && |restAt| == |restValues|
    requires line == [a] + restLine && at == Shift(restAt, 1) && values == restValues
    requires k < |at| && k <= restAt[k] && restAt[k] - k < |Nonzeros(restLine)|
    requires Nonzeros(restLine)[restAt[k] - k] == restValues[k]
    ensures k <= at[k] && at[k] - k < |Nonzeros(line)| && Nonzeros(line)[at[k] - k] == values[k]
  {
    NonzerosCons(a, restLine);
    ShiftAt(restAt, 1, k);
    var x := restAt[k] - k;
    assert Nonzeros(line)[x + 1] == Nonzeros(restLine)[x];
  }

  lemma SinglePassMergeHead(p: seq<int>)
    requires |p| >= 2 && p[0] != 0 && p[0] == p[1]
    ensures SinglePass(p) == Pass([p[0] + p[0], 0] + SinglePass(p[2..]).line,
      [0] + Shift(SinglePass(p[2..]).at, 2), [p[0] + p[0]] + SinglePass(p[2..]).values)
  {
  }

  /** The pass, one position at a time: at a position where a merge
      happens, doubling it and zeroing its partner leaves the remaining
      work (the pass from the next position on) consistent with the pass
      from this position. */
  lemma PassStepMerge(a: seq<int>, i: nat, b: seq<int>)
    requires i + 1 < |a| && a[i] != 0 && a[i] == a[i + 1]
    requires b == a[i := a[i] + a[i]][i + 1 := 0]
    ensures b[..i + 1] + SinglePass(b[i + 1..]).line == a[..i] + SinglePass(a[i..]).line
    ensures [i] + Shift(SinglePass(b[i + 1..]).at, i + 1) == Shift(SinglePass(a[i..]).at, i)
    ensures SinglePass(a[i..]).values == [a[i] + a[i]] + SinglePass(b[i + 1..]).values
  {
    var t := a[i + 2..];
    assert a[i..][2..] == t;
    assert b[i + 1..] == [0] + t;
    assert b[i + 1..][1..] == t;
    SinglePassNoMergeHead(b[i + 1..]);
    SinglePassMergeHead(a[i..]);
    assert b[..i + 1] == a[..i] + [a[i] + a[i]];
    MergeStepAssembly(a[..i], a[i] + a[i], i, SinglePass(a[i..]), SinglePass(b[i + 1..]), SinglePass(t));
  }

  /** The bookkeeping of `PassStepMerge`, on the three passes involved: from
      the merging position (`sa`), from its zeroed partner (`sb`), and from
      the rest of the line (`st`). */
  lemma MergeStepAssembly(pre: seq<int>, v: int, i: nat, sa: Pass, sb: Pass, st: Pass)
    requires sa == Pass([v, 0] + st.line, [0] + Shift(st.at, 2), [v] + st.values)
    requires sb == Pass([0] + st.line, Shift(st.at, 1), st.values)
    ensures (pre + [v]) + sb.line == pre + sa.line
    ensures [i] + Shift(sb.at, i + 1) == Shift(sa.at, i)
    ensures sa.values == [v] + sb.values
  {
    ShiftAppendOne(st.at, i);
    ShiftAppendOne(st.at, i + 1);
  }

  /** The pass, one position at a time, at a position where no merge
      happens: the position is kept and the work moves on. */
  lemma PassStepSkip(a: seq<int>, i: nat)
    requires i < |a| && !(i + 1 < |a| && a[i] != 0 && a[i] == a[i + 1])
    ensures a[..i + 1] + SinglePass(a[i + 1..]).line == a[..i] + SinglePass(a[i..]).line
    ensures Shift(SinglePass(a[i + 1..]).at, i + 1) == Shift(SinglePass(a[i..]).at, i)
    ensures SinglePass(a[i + 1..]).values == SinglePass(a[i..]).values
  {
    assert a[i..][1..] == a[i + 1..];
    SinglePassNoMergeHead(a[i..]);
    ShiftAppendOne(SinglePass(a[i + 1..]).at, i);
    assert a[..i + 1] == a[..i] + [a[i]];
  }

  /** Appending one entry to the input of `removeZero`: a zero changes
      nothing, a non-zero entry is written at the next free slot, or
      appended when the line is already full. */
  lemma CompactSnoc(s: seq<int>, x: int, n: nat)
    ensures Compact(s + [x], n) ==
      if x == 0 then Compact(s, n)
      else if |Nonzeros(s)| < |Compact(s, n)| then Compact(s, n)[|Nonzeros(s)| := x]
      else Compact(s, n) + [x]
  {
    NonzerosSnoc(s, x);
    var nz := Nonzeros(s);
    if x != 0 {
      if |nz| < n {
        PadWrite(nz, x, n);
      } else {
        assert nz + Zeros(0) == nz;
      }
    } else {
      assert nz + [] == nz;
    }
  }

  lemma NonzerosSnoc(s: seq<int>, x: int)
    ensures Nonzeros(s + [x]) == Nonzeros(s) + (if x != 0 then [x] else [])
  {
    NonzerosAppend(s, [x]);
    assert [x][1..] == [];
  }

  /** Writing `x` into the first padding slot of a padded line is padding
      the line extended by `x`. */
  lemma PadWrite(nz: seq<int>, x: int, n: nat)
    requires |nz| < n
    ensures (nz + Zeros(n - |nz|))[|nz| := x] == nz + [x] + Zeros(n - |nz| - 1)
  {
  }


  // ---------------------------------------------------------------------
  // merge = compact, pass, compact

  /** `merge` on a line that fits in `n` cells returns a packed line of `n`
      cells with the same sum and one non-zero cell fewer per reported
      merge. */
  lemma MergeConserves(l: seq<int>, n: nat)
    requires |l| <= n
    ensures && |Merge(l, n).line| == n
      && Packed(Merge(l, n).line)
      && Sum(Merge(l, n).line) == Sum(l)
      && |Nonzeros(Merge(l, n).line)| == |Nonzeros(l)| - |Merge(l, n).changed|
  {
    var packed := Compact(l, n);
    var pass := SinglePass(packed);
    CompactSpec(l, n);
    SinglePassConserves(packed);
    CompactSpec(pass.line, n);
  }

  /** The length part of `MergeConserves` alone. */
  lemma MergeLength(l: seq<int>, n: nat)
    requires |l| <= n
    ensures |Merge(l, n).line| == n
  {
    MergeConserves(l, n);
  }

  /** The reported indices point into the once-compacted line (not the
      final line): each had equal non-zero values at `i` and `i + 1` there,
      its produced value is their double, and the indices are strictly
      increasing and at least two apart. */
  lemma MergeIndices(l: seq<int>, n: nat)
    ensures && (forall k :: 0 <= k < |Merge(l, n).changed| ==>
            && Merge(l, n).changed[k] + 1 < |Compact(l, n)|
            && Compact(l, n)[Merge(l, n).changed[k]] != 0
            && Compact(l, n)[Merge(l, n).changed[k]] == Compact(l, n)[Merge(l, n).changed[k] + 1]
            && Merge(l, n).values[k] == Compact(l, n)[Merge(l, n).changed[k]] + Compact(l, n)[Merge(l, n).changed[k]])
      && (forall k :: 0 <= k < |Merge(l, n).changed| - 1 ==> Merge(l, n).changed[k] + 2 <= Merge(l, n).changed[k + 1])
  {
    forall k | 0 <= k < |Merge(l, n).changed| {
      MergeIndex(l, n, k);
    }
  }

  /** One reported index of `MergeIndices`. */
  lemma MergeIndex(l: seq<int>, n: nat, k: nat)
    requires k < |Merge(l, n).changed|
    ensures && Merge(l, n).changed[k] + 1 < |Compact(l, n)|
            && Compact(l, n)[Merge(l, n).changed[k]] != 0
            && Compact(l, n)[Merge(l, n).changed[k]] == Compact(l, n)[Merge(l, n).changed[k] + 1]
            && Merge(l, n).values[k] == Compact(l, n)[Merge(l, n).changed[k]] + Compact(l, n)[Merge(l, n).changed[k]]
    ensures k + 1 < |Merge(l, n).changed| ==> Merge(l, n).changed[k] + 2 <= Merge(l, n).changed[k + 1]
  {
    SinglePassAt(Compact(l, n), k);
  }

  /** The `k`-th merged value sits at position `changed[k] - k` of the final
      line, so a reported index is a final position only for the first
      merge of a line. */
  lemma MergeFinalPositions(l: seq<int>, n: nat)
    ensures forall k :: 0 <= k < |Merge(l, n).changed| ==>
        k <= Merge(l, n).changed[k] && Merge(l, n).changed[k] - k < |Merge(l, n).line| && Merge(l, n).line[Merge(l, n).changed[k] - k] == Merge(l, n).values[k]
  {
    forall k | 0 <= k < |Merge(l, n).changed| {
      MergeFinalPosition(l, n, k);
    }
  }

  /** One merge of `MergeFinalPositions`. */
  lemma MergeFinalPosition(l: seq<int>, n: nat, k: nat)
    requires k < |Merge(l, n).changed|
    ensures k <= Merge(l, n).changed[k] && Merge(l, n).changed[k] - k < |Merge(l, n).line|
    ensures Merge(l, n).line[Merge(l, n).changed[k] - k] == Merge(l, n).values[k]
  {
    var packed := Compact(l, n);
    var pass := SinglePass(packed);
    CompactPacked(l, n);
    SinglePassFinalPosition(packed, k);
    CompactAt(pass.line, n, pass.at[k] - k);
  }

  /** The compacted line is packed. */
  lemma CompactPacked(s: seq<int>, n: nat)
    ensures Packed(Compact(s, n))
  {
    var nz := Nonzeros(s);
    var r := Compact(s, n);
    NonzerosAreNonzero(s);
    forall i, j | 0 <= i < j < |r| && r[i] == 0 ensures r[j] == 0 {
      assert i >= |nz|;
    }
  }

  /** The compacted line starts with the non-zero entries. */
  lemma CompactAt(s: seq<int>, n: nat, j: nat)
    requires j < |Nonzeros(s)|
    ensures j < |Compact(s, n)| && Compact(s, n)[j] == Nonzeros(s)[j]
  {
  }

  /** `merge` reports no merge exactly when the compacted line has no equal
      non-zero neighbours, and then it returns the compacted line. */
  lemma MergeNoMergeIff(l: seq<int>, n: nat)
    ensures && (Merge(l, n).changed == [] <==> NoEqualNeighbours(Compact(l, n)))
      && (Merge(l, n).changed == [] ==> Merge(l, n).line == Compact(l, n))
  {
    var packed := Compact(l, n);
    SinglePassNoMergeIff(packed);
    if NoEqualNeighbours(packed) {
      SinglePassIdentity(packed);
      CompactIdempotent(l, n);
    }
  }

  /** Compaction is idempotent: compacting a compacted line changes nothing. */
  lemma CompactIdempotent(s: seq<int>, n: nat)
    ensures Compact(Compact(s, n), n) == Compact(s, n)
  {
    CompactSpec(s, n);
  }

  lemma PackedTail(s: seq<int>, d: nat)
    requires Packed(s) && d <= |s|
    ensures Packed(s[d..])
  {
    forall i, j | 0 <= i < j < |s[d..]| && s[d..][i] == 0 ensures s[d..][j] == 0 {
      assert s[d + i] == 0;
    }
  }

  /** A line with no zero and no two equal neighbours is left unchanged by
      `merge`, with no merge reported. */
  lemma MergeStuckLine(l: seq<int>, n: nat)
    requires |l| == n && (forall i :: 0 <= i < |l| ==> l[i] != 0) && NoEqualNeighbours(l)
    ensures Merge(l, n) == MergeResult(l, [], [])
  {
    CompactFull(l, n);
    SinglePassIdentity(l);
  }

  /** A line with no zero but with two equal neighbours loses a non-zero
      cell under `merge`, so `merge` changes it. */
  lemma MergeLineWithPair(l: seq<int>, n: nat)
    requires |l| == n && (forall i :: 0 <= i < |l| ==> l[i] != 0) && !NoEqualNeighbours(l)
    ensures Merge(l, n).line != l && Merge(l, n).changed != []
  {
    CompactFull(l, n);
    MergeNoMergeIff(l, n);
    MergeConserves(l, n);
    NonzerosOfNonzeros(l);
  }

  // ---------------------------------------------------------------------
  // Scores

  lemma {:induction false} MaxWithAppend(c: int, a: seq<int>, b: seq<int>)
    ensures MaxWith(c, a + b) == MaxWith(MaxWith(c, a), b)
    decreases a
  {
    if a == [] {
      assert a + b == b;
    } else {
      assert (a + b)[1..] == a[1..] + b;
      MaxWithAppend(Max(c, a[0]), a[1..], b);
    }
  }

  // ---------------------------------------------------------------------
  // Reversal

  lemma Reverse4(a: int, b: int, c: int, d: int)
    ensures Reverse([a, b, c, d]) == [d, c, b, a]
  {
  }

  lemma ReverseReverse(s: seq<int>)
    ensures Reverse(Reverse(s)) == s
  {
  }

  // ---------------------------------------------------------------------
  // Worked lines

  /** Four equal tiles merge pairwise, not into one tile; the reported
      indices are 0 and 2 (positions in the compacted line), while the two
      new tiles end at positions 0 and 1. */
  lemma MergeFourEqual()
    ensures Merge([2, 2, 2, 2], 4) == MergeResult([4, 4, 0, 0], [0, 2], [4, 4])
  {
    CompactFull([2, 2, 2, 2], 4);
    assert [2, 2][2..] == [];
    assert SinglePass([2, 2]) == Pass([4, 0], [0], [4]) by {
      assert Shift([], 2) == [];
    }
    assert [2, 2, 2, 2][2..] == [2, 2];
    assert SinglePass([2, 2, 2, 2]) == Pass([4, 0, 4, 0], [0, 2], [4, 4]) by {
      assert [0] + Shift([0], 2) == [0, 2];
      assert [4, 0] + [4, 0] == [4, 0, 4, 0];
    }
    NonzerosShape4(4, 0, 4, 0);
    assert Compact([4, 0, 4, 0], 4) == [4, 4] + Zeros(2);
    assert [4, 4] + Zeros(2) == [4, 4, 0, 0];
  }

  /** Gaps are closed and one pair merges: `[0, 2, 0, 2]` becomes
      `[4, 0, 0, 0]` with one merge at index 0. */
  lemma MergeGapped()
    ensures Merge([0, 2, 0, 2], 4) == MergeResult([4, 0, 0, 0], [0], [4])
  {
    GappedCompact();
    GappedPass();
    GappedRecompact();
  }

  lemma GappedCompact()
    ensures Compact([0, 2, 0, 2], 4) == [2, 2, 0, 0]
  {
    NonzerosShape4(0, 2, 0, 2);
    assert [2, 2] + Zeros(2) == [2, 2, 0, 0];
  }

  lemma GappedPass()
    ensures SinglePass([2, 2, 0, 0]) == Pass([4, 0, 0, 0], [0], [4])
  {
    SinglePassMergeHead([2, 2, 0, 0]);
    assert [2, 2, 0, 0][2..] == [0, 0];
    SinglePassIdentity([0, 0]);
    assert [0] + Shift([], 2) == [0];
    assert [4, 0] + [0, 0] == [4, 0, 0, 0];
  }

  lemma GappedRecompact()
    ensures Compact([4, 0, 0, 0], 4) == [4, 0, 0, 0]
  {
    NonzerosShape4(4, 0, 0, 0);
    assert [4] + Zeros(3) == [4, 0, 0, 0];
  }


  /** A merge at the head of a full line: `[2, 2, 8, 16]` becomes
      `[4, 8, 16, 0]`, and the last cell is freed. */
  lemma MergeHeadPair()
    ensures Merge([2, 2, 8, 16], 4) == MergeResult([4, 8, 16, 0], [0], [4])
  {
    CompactFull([2, 2, 8, 16], 4);
    HeadPairPass();
    HeadPairRecompact();
  }

  lemma HeadPairPass()
    ensures SinglePass([2, 2, 8, 16]) == Pass([4, 0, 8, 16], [0], [4])
  {
    SinglePassMergeHead([2, 2, 8, 16]);
    assert [2, 2, 8, 16][2..] == [8, 16];
    SinglePassIdentity([8, 16]);
    assert [0] + Shift([], 2) == [0];
    assert [4, 0] + [8, 16] == [4, 0, 8, 16];
  }

  lemma HeadPairRecompact()
    ensures Compact([4, 0, 8, 16], 4) == [4, 8, 16, 0]
  {
    NonzerosShape4(4, 0, 8, 16);
    assert [4, 8, 16] + Zeros(1) == [4, 8, 16, 0];
  }

  /** Two pairs in a full line merge separately: `[2, 2, 4, 4]` becomes
      `[4, 8, 0, 0]`, freeing two adjacent cells. */
  lemma MergeTwoPairs()
    ensures Merge([2, 2, 4, 4], 4) == MergeResult([4, 8, 0, 0], [0, 2], [4, 8])
  {
    CompactFull([2, 2, 4, 4], 4);
    TwoPairsPass();
    TwoPairsRecompact();
  }

  lemma TwoPairsPass()
    ensures SinglePass([2, 2, 4, 4]) == Pass([4, 0, 8, 0], [0, 2], [4, 8])
  {
    SinglePassMergeHead([2, 2, 4, 4]);
    assert [2, 2, 4, 4][2..] == [4, 4];
    SinglePassMergeHead([4, 4]);
    assert [4, 4][2..] == [];
    assert Shift([], 2) == [];
    assert [0] + Shift([0], 2) == [0, 2];
    assert [4, 0] + [8, 0] == [4, 0, 8, 0];
  }

  lemma TwoPairsRecompact()
    ensures Compact([4, 0, 8, 0], 4) == [4, 8, 0, 0]
  {
    NonzerosShape4(4, 0, 8, 0);
    assert [4, 8] + Zeros(2) == [4, 8, 0, 0];
  }

  /** A line with one gap at the wall and distinct tiles only slides:
      `[0, 16, 8, 4]` becomes `[16, 8, 4, 0]` with no merge. */
  lemma MergeSlideOnly()
    ensures Merge([0, 16, 8, 4], 4) == MergeResult([16, 8, 4, 0], [], [])
  {
    SlideCompact();
    SinglePassIdentity([16, 8, 4, 0]);
    SlideRecompact();
  }

  lemma SlideCompact()
    ensures Compact([0, 16, 8, 4], 4) == [16, 8, 4, 0]
  {
    NonzerosShape4(0, 16, 8, 4);
    assert [16, 8, 4] + Zeros(1) == [16, 8, 4, 0];
  }

  lemma SlideRecompact()
    ensures Compact([16, 8, 4, 0], 4) == [16, 8, 4, 0]
  {
    NonzerosShape4(16, 8, 4, 0);
    assert [16, 8, 4] + Zeros(1) == [16, 8, 4, 0];
  }

  /** Alternating tiles do not merge: `[2, 4, 2, 4]` comes back unchanged. */
  lemma MergeAlternating()
    ensures Merge([2, 4, 2, 4], 4) == MergeResult([2, 4, 2, 4], [], [])
  {
    MergeStuckLine([2, 4, 2, 4], 4);
  }

  /** Non-zero entries of a four-cell line, cell by cell. */
  lemma NonzerosShape4(a: int, b: int, c: int, d: int)
    ensures Nonzeros([a, b, c, d]) ==
      (if a != 0 then [a] else []) + (if b != 0 then [b] else []) +
      (if c != 0 then [c] else []) + (if d != 0 then [d] else [])
  {
    var A, B, C, D := (if a != 0 then [a] else []), (if b != 0 then [b] else []),
                      (if c != 0 then [c] else []), (if d != 0 then [d] else []);
    assert [d][1..] == [];
    assert Nonzeros([d]) == D;
    assert [c, d][1..] == [d];
    assert Nonzeros([c, d]) == C + D;
    assert [b, c, d][1..] == [c, d];
    assert Nonzeros([b, c, d]) == B + (C + D);
    assert [a, b, c, d][1..] == [b, c, d];
    assert Nonzeros([a, b, c, d]) == A + (B + (C + D));
  }
}
