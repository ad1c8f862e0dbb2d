/** The wildcard matcher of the rule engine: a greedy scan with one backtrack point, against the
    declarative meaning of a glob (`?` is one byte, `*` is any run of bytes). */
module Glob {
  import opened Basics

  const STAR: Byte := 42
  const ANY: Byte := 63

  /** The declarative meaning: pattern[i..] matches text[j..]. */
  ghost predicate Matches(p: seq<Byte>, t: seq<Byte>, i: nat, j: nat)
    requires i <= |p| && j <= |t|
    decreases |p| - i
  {
    if i == |p| then j == |t|
    else if p[i] == STAR then var next := i + 1; exists k :: j <= k <= |t| && Matches(p, t, next, k)
    else j < |t| && Fits(p[i], t[j]) && Matches(p, t, i + 1, j + 1)
  }

  ghost predicate GlobMatches(p: seq<Byte>, t: seq<Byte>) {
    Matches(p, t, 0, 0)
  }

  /** The literal test of the scan; it runs before the star test, so it also accepts a star byte. */
  predicate Fits(c: Byte, x: Byte) {
    c == ANY || c == x
  }

  predicate OnlyStars(p: seq<Byte>, i: nat)
    requires i <= |p|
    decreases |p| - i
  {
    i == |p| || (p[i] == STAR && OnlyStars(p, i + 1))
  }

  /** What the loop computes from the cursors px, tx and the last star seen (starTx is 0 before one). */
  predicate Scan(p: seq<Byte>, t: seq<Byte>, px: nat, tx: nat, star: Option<nat>, starTx: nat)
    requires px <= |p| && starTx <= tx <= |t|
    requires star.Some? ==> star.value < px
    decreases |t| - starTx, |p| - px
  {
    if tx == |t| then OnlyStars(p, px)
    else if px < |p| && Fits(p[px], t[tx]) then Scan(p, t, px + 1, tx + 1, star, starTx)
    else if px < |p| && p[px] == STAR then Scan(p, t, px + 1, tx, Some(px), tx)
    else if star.Some? then Scan(p, t, star.value + 1, starTx + 1, star, starTx + 1)
    else false
  }

  /** The value of `glob_match(pattern, text)`. */
  predicate GlobScan(p: seq<Byte>, t: seq<Byte>) {
    Scan(p, t, 0, 0, None, 0)
  }

  /** The two while loops of the matcher. */
  method GlobMatch(p: seq<Byte>, t: seq<Byte>) returns (r: bool)
    ensures r == GlobScan(p, t)
    ensures r ==> GlobMatches(p, t)
    ensures STAR !in t ==> r == GlobMatches(p, t)
  {
    var px: nat, tx: nat, starTx: nat := 0, 0, 0;
    var star: Option<nat> := None;
    GlobSound(p, t);
    if STAR !in t { GlobComplete(p, t); }
    while tx < |t|
      invariant px <= |p| && starTx <= tx <= |t|
      invariant star.Some? ==> star.value < px
      invariant Scan(p, t, px, tx, star, starTx) == GlobScan(p, t)
      decreases |t| - starTx, |p| - px
    {
      if px < |p| && Fits(p[px], t[tx]) {
        px, tx := px + 1, tx + 1;
      } else if px < |p| && p[px] == STAR {
        star, starTx := Some(px), tx;
        px := px + 1;
      } else if star.Some? {
        px := star.value + 1;
        starTx := starTx + 1;
        tx := starTx;
      } else {
        return false;
      }
    }
    while px < |p| && p[px] == STAR
      invariant px <= |p|
      invariant OnlyStars(p, px) == GlobScan(p, t)
    {
      px := px + 1;
    }
    return px == |p|;
  }

  // ----- Facts about the declarative meaning -----

  lemma {:induction false} AtTextEnd(p: seq<Byte>, t: seq<Byte>, i: nat)
    requires i <= |p|
    ensures Matches(p, t, i, |t|) <==> OnlyStars(p, i)
    decreases |p| - i
  {
    if i < |p| { AtTextEnd(p, t, i + 1); }
  }

  /** A star that matches from k also matches from any earlier position. */
  lemma StarAbsorbs(p: seq<Byte>, t: seq<Byte>, i: nat, j: nat, k: nat)
    requires i < |p| && p[i] == STAR && j <= k <= |t|
    requires Matches(p, t, i, k)
    ensures Matches(p, t, i, j)
  {
    var m :| k <= m <= |t| && Matches(p, t, i + 1, m);
  }

  /** p[i..i+n] is star-free and fits the text at j byte for byte. */
  ghost predicate FitsAt(p: seq<Byte>, t: seq<Byte>, i: nat, j: nat, n: nat)
    requires i + n <= |p|
  {
    j + n <= |t| && forall m :: i <= m < i + n ==> Fits(p[m], t[m - i + j])
  }

  ghost predicate StarFree(p: seq<Byte>, i: nat, n: nat)
    requires i + n <= |p|
  {
    forall m :: i <= m < i + n ==> p[m] != STAR
  }

  /** A star-free segment matches exactly by fitting byte for byte. */
  lemma {:induction false} SegmentMatches(p: seq<Byte>, t: seq<Byte>, i: nat, j: nat, n: nat)
    requires i + n <= |p| && j <= |t| && StarFree(p, i, n)
    ensures Matches(p, t, i, j) <==> FitsAt(p, t, i, j, n) && Matches(p, t, i + n, j + n)
    decreases n
  {
    if n > 0 && j < |t| { SegmentMatches(p, t, i + 1, j + 1, n - 1); }
  }

  // ----- The declarative meaning, without positions -----

  /** A star is the byte `*` and an any-byte is `?`. */
  lemma WildcardBytes()
    ensures STAR == '*' as int && ANY == '?' as int
  {
  }

  lemma {:induction false} TextShift(p: seq<Byte>, t: seq<Byte>, p': seq<Byte>, t': seq<Byte>, i: nat, j: nat,
      a: nat, b: nat)
    requires a <= |p| && b <= |t| && p' == p[a..] && t' == t[b..] && i <= |p'| && j <= |t'|
    ensures Matches(p', t', i, j) <==> Matches(p, t, a + i, b + j)
    decreases |p'| - i
  {
    if i < |p'| {
      if p'[i] == STAR {
        var next := i + 1;
        forall k | j <= k <= |t'| ensures Matches(p', t', next, k) <==> Matches(p, t, a + next, b + k) {
          TextShift(p, t, p', t', next, k, a, b);
        }
        if Matches(p', t', i, j) {
          var k :| j <= k <= |t'| && Matches(p', t', i + 1, k);
          assert Matches(p', t', next, k);
          assert Matches(p, t, a + next, b + k);
        }
        if Matches(p, t, a + i, b + j) {
          var k :| b + j <= k <= |t| && Matches(p, t, a + i + 1, k);
          assert Matches(p', t', next, k - b);
        }
      } else if j < |t'| {
        TextShift(p, t, p', t', i + 1, j + 1, a, b);
      }
    }
  }

  /** The meaning of a glob by its first byte: nothing matches only nothing, a star takes any run, a question mark
      any one byte, and any other byte itself. */
  lemma GlobMeans(p: seq<Byte>, t: seq<Byte>)
    ensures p == [] ==> (GlobMatches(p, t) <==> t == [])
    ensures p != [] && p[0] == '*' as int ==>
              (GlobMatches(p, t) <==> exists n: nat :: n <= |t| && GlobMatches(p[1..], t[n..]))
    ensures p != [] && p[0] == '?' as int ==>
              (GlobMatches(p, t) <==> t != [] && GlobMatches(p[1..], t[1..]))
    ensures p != [] && p[0] != '*' as int && p[0] != '?' as int ==>
              (GlobMatches(p, t) <==> t != [] && t[0] == p[0] && GlobMatches(p[1..], t[1..]))
  {
    if p != [] && p[0] == STAR {
      forall n: nat | n <= |t| ensures GlobMatches(p[1..], t[n..]) <==> Matches(p, t, 1, n) {
        TextShift(p, t, p[1..], t[n..], 0, 0, 1, n);
      }
      if GlobMatches(p, t) {
        var n :| 0 <= n <= |t| && Matches(p, t, 0 + 1, n);
        assert GlobMatches(p[1..], t[n..]);
      }
      if n: nat :| n <= |t| && GlobMatches(p[1..], t[n..]) {
        assert Matches(p, t, 0 + 1, n);
      }
    } else if p != [] && t != [] {
      TextShift(p, t, p[1..], t[1..], 0, 0, 1, 1);
    }
  }

  // ----- Soundness: every accepted text is a match -----

  lemma {:induction false} ScanSound(p: seq<Byte>, t: seq<Byte>, px: nat, tx: nat, star: Option<nat>, starTx: nat)
    requires px <= |p| && starTx <= tx <= |t|
    requires star.Some? ==> star.value < px && p[star.value] == STAR
    requires Scan(p, t, px, tx, star, starTx)
    ensures Matches(p, t, px, tx) || (star.Some? && Matches(p, t, star.value, starTx))
    decreases |t| - starTx, |p| - px
  {
    if tx == |t| {
      AtTextEnd(p, t, px);
    } else if px < |p| && Fits(p[px], t[tx]) {
      ScanSound(p, t, px + 1, tx + 1, star, starTx);
    } else if px < |p| && p[px] == STAR {
      ScanSound(p, t, px + 1, tx, Some(px), tx);
    } else {
      ScanSound(p, t, star.value + 1, starTx + 1, star, starTx + 1);
      if Matches(p, t, star.value, starTx + 1) {
        StarAbsorbs(p, t, star.value, starTx, starTx + 1);
      }
    }
  }

  /** Soundness on every pattern and every text. */
  lemma GlobSound(p: seq<Byte>, t: seq<Byte>)
    ensures GlobScan(p, t) ==> GlobMatches(p, t)
  {
    if GlobScan(p, t) { ScanSound(p, t, 0, 0, None, 0); }
  }

  // ----- Completeness: the single backtrack point is enough -----

  /** What a scan over star-free text knows: since the last star the pattern advanced in step with the text. */
  ghost predicate InStep(p: seq<Byte>, t: seq<Byte>, px: nat, tx: nat, star: Option<nat>, starTx: nat) {
    && px <= |p|
    && starTx <= tx <= |t|
    && (star.Some? ==>
      && star.value < px
      && p[star.value] == STAR
      && px - star.value - 1 == tx - starTx
      && StarFree(p, star.value + 1, tx - starTx)
      && FitsAt(p, t, star.value + 1, starTx, tx - starTx))
  }

  /** The leftmost fit of a segment is the one to keep: what follows it may only start later. */
  lemma LaterStart(p: seq<Byte>, t: seq<Byte>, px: nat, tx: nat, star: Option<nat>, starTx: nat, k: nat)
    requires InStep(p, t, px, tx, star, starTx) && star.Some?
    requires starTx <= k <= |t| && Matches(p, t, star.value + 1, k)
    ensures k + (tx - starTx) <= |t| && Matches(p, t, px, k + (tx - starTx))
  {
    SegmentMatches(p, t, star.value + 1, k, tx - starTx);
  }

  lemma {:induction false} ScanComplete(p: seq<Byte>, t: seq<Byte>, px: nat, tx: nat, star: Option<nat>, starTx: nat)
    requires STAR !in t
    requires InStep(p, t, px, tx, star, starTx)
    requires Matches(p, t, px, tx) || (star.Some? && Matches(p, t, star.value, starTx))
    ensures Scan(p, t, px, tx, star, starTx)
    decreases |t| - starTx, |p| - px
  {
    if tx == |t| {
      if !Matches(p, t, px, tx) {
        var k :| starTx <= k <= |t| && Matches(p, t, star.value + 1, k);
        LaterStart(p, t, px, tx, star, starTx, k);
      }
      AtTextEnd(p, t, px);
    } else if px < |p| && Fits(p[px], t[tx]) {
      assert p[px] != STAR;
      ScanComplete(p, t, px + 1, tx + 1, star, starTx);
    } else if px < |p| && p[px] == STAR {
      if !Matches(p, t, px, tx) {
        var k :| starTx <= k <= |t| && Matches(p, t, star.value + 1, k);
        LaterStart(p, t, px, tx, star, starTx, k);
      }
      ScanComplete(p, t, px + 1, tx, Some(px), tx);
    } else {
      var k :| starTx <= k <= |t| && Matches(p, t, star.value + 1, k);
      LaterStart(p, t, px, tx, star, starTx, k);
      assert k > starTx;
      assert Matches(p, t, star.value, starTx + 1);
      ScanComplete(p, t, star.value + 1, starTx + 1, star, starTx + 1);
    }
  }

  /** On star-free text the greedy scan finds every match. */
  lemma GlobComplete(p: seq<Byte>, t: seq<Byte>)
    requires STAR !in t
    ensures GlobMatches(p, t) ==> GlobScan(p, t)
  {
    if GlobMatches(p, t) { ScanComplete(p, t, 0, 0, None, 0); }
  }

  // ----- Exactly when the scan is the glob -----

  /** One step of literal progress, `n` times, with no star recorded. */
  lemma {:induction false} ScanLiterally(p: seq<Byte>, t: seq<Byte>, px: nat, n: nat)
    requires px + n <= |p| && px + n <= |t|
    requires forall m :: px <= m < px + n ==> Fits(p[m], t[m])
    ensures Scan(p, t, px, px, None, 0) == Scan(p, t, px + n, px + n, None, 0)
    decreases n
  {
    if n > 0 { ScanLiterally(p, t, px + 1, n - 1); }
  }

  /** A star anywhere in the text makes the scan reject the all-`?` pattern with a star at that place. */
  lemma StarInTextRejected(t: seq<Byte>, k: nat) returns (p: seq<Byte>)
    requires k < |t| && t[k] == STAR
    ensures GlobMatches(p, t) && !GlobScan(p, t)
  {
    p := seq(|t| + 1, i requires 0 <= i => if i == k then STAR else ANY);
    ScanLiterally(p, t, 0, |t|);
    SegmentMatches(p, t, k + 1, k, |t| - k);
    assert Matches(p, t, k, k);
    SegmentMatches(p, t, 0, 0, k);
  }

  lemma TailFits(p: seq<Byte>, t: seq<Byte>, k: nat)
    requires k < |p| && t == p + [0] + p[k + 1..]
    ensures FitsAt(p, t, k + 1, |p| + 1, |p| - k - 1)
  {
    forall m | k + 1 <= m < |p| ensures Fits(p[m], t[m - (k + 1) + (|p| + 1)]) {
      assert t[m - (k + 1) + (|p| + 1)] == p[k + 1..][m - (k + 1)];
    }
  }

  /** The star takes everything up to the second copy of the tail. */
  lemma StarReachesTail(p: seq<Byte>, t: seq<Byte>, k: nat)
    requires k < |p| && p[k] == STAR && StarFree(p, k + 1, |p| - k - 1) && t == p + [0] + p[k + 1..]
    ensures Matches(p, t, k, k)
  {
    TailFits(p, t, k);
    SegmentMatches(p, t, k + 1, |p| + 1, |p| - k - 1);
  }

  /** But the scan takes the whole pattern literally and then has text left over. */
  lemma LiteralScanRejects(p: seq<Byte>, t: seq<Byte>)
    requires p <= t && |t| > |p|
    ensures !GlobScan(p, t)
  {
    ScanLiterally(p, t, 0, |p|);
  }

  /** A star anywhere in the pattern makes the scan reject the pattern itself followed by a byte and
      everything after its last star. */
  lemma StarInPatternRejects(p: seq<Byte>, k: nat) returns (t: seq<Byte>)
    requires k < |p| && p[k] == STAR && StarFree(p, k + 1, |p| - k - 1)
    ensures GlobMatches(p, t) && !GlobScan(p, t)
  {
    t := p + [0] + p[k + 1..];
    LiteralScanRejects(p, t);
    StarReachesTail(p, t, k);
    MatchesItself(p, t, 0, k);
  }

  lemma {:induction false} MatchesItself(p: seq<Byte>, t: seq<Byte>, i: nat, k: nat)
    requires i <= k <= |p| && k <= |t| && p[..k] == t[..k]
    requires Matches(p, t, k, k)
    ensures Matches(p, t, i, i)
    decreases k - i
  {
    if i < k {
      MatchesItself(p, t, i + 1, k);
      assert p[i] == p[..k][i] == t[..k][i] == t[i];
    }
  }

  lemma LastStar(p: seq<Byte>, n: nat) returns (k: nat)
    requires n <= |p| && STAR in p[..n] && StarFree(p, n, |p| - n)
    ensures k < |p| && p[k] == STAR && StarFree(p, k + 1, |p| - k - 1)
  {
    if p[n - 1] == STAR { k := n - 1; } else {
      assert p[..n] == p[..n - 1] + [p[n - 1]];
      k := LastStar(p, n - 1);
    }
  }

  /** The scan decides globs on a text, for every pattern, exactly when the text has no star byte. */
  lemma ExactForText(t: seq<Byte>)
    ensures (forall p: seq<Byte> :: GlobScan(p, t) == GlobMatches(p, t)) <==> STAR !in t
  {
    if STAR !in t {
      forall p: seq<Byte> ensures GlobScan(p, t) == GlobMatches(p, t) {
        GlobSound(p, t);
        GlobComplete(p, t);
      }
    } else {
      var k :| 0 <= k < |t| && t[k] == STAR;
      var p := StarInTextRejected(t, k);
    }
  }

  lemma {:induction false} StarFreePatternComplete(p: seq<Byte>, t: seq<Byte>, i: nat)
    requires i <= |p| && i <= |t| && STAR !in p && Matches(p, t, i, i)
    ensures Scan(p, t, i, i, None, 0)
    decreases |p| - i
  {
    if i < |p| { StarFreePatternComplete(p, t, i + 1); }
  }

  /** The scan decides a pattern, on every text, exactly when the pattern has no star. */
  lemma ExactForPattern(p: seq<Byte>)
    ensures (forall t: seq<Byte> :: GlobScan(p, t) == GlobMatches(p, t)) <==> STAR !in p
  {
    if STAR !in p {
      forall t: seq<Byte> ensures GlobScan(p, t) == GlobMatches(p, t) {
        GlobSound(p, t);
        if GlobMatches(p, t) { StarFreePatternComplete(p, t, 0); }
      }
    } else {
      assert p[..|p|] == p;
      var k := LastStar(p, |p|);
      var t := StarInPatternRejects(p, k);
    }
  }
}
