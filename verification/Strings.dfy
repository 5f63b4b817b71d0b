/** Facts about slices that the text proofs reuse. */
module Strings {

  /** `a` from `i` and `b` from `j` agree on `len` characters. */
  ghost predicate Match(a: string, b: string, i: nat, j: nat, len: nat)
  {
    i + len <= |a| && j + len <= |b| && a[i..i + len] == b[j..j + len]
  }

  /** A spelled prefix grows by a stretch both texts share. */
  lemma GrowPrefix(w: string, a: string, b: string, p: nat, i: nat, j: nat, len: nat)
    requires Match(a, b, i, j, len) && p <= i && w + a[p..i] == b[..j]
    ensures w + a[p..i + len] == b[..j + len]
  {
    var l, r := w + a[p..i + len], b[..j + len];
    assert |w + a[p..i]| == j;
    forall t | 0 <= t < |l| ensures l[t] == r[t] {
      if t < j {
        assert (w + a[p..i])[t] == b[..j][t];
      } else {
        assert a[i..i + len][t - j] == b[j..j + len][t - j];
      }
    }
  }

  lemma ShorterMatch(a: string, b: string, x: nat, y: nat, len: nat)
    requires 0 < len && x + len <= |a| && y + len <= |b| && a[x..x + len] == b[y..y + len]
    ensures a[x..x + (len - 1)] == b[y..y + (len - 1)]
  {
    assert a[x..x + (len - 1)] == a[x..x + len][..len - 1];
    assert b[y..y + (len - 1)] == b[y..y + len][..len - 1];
  }

  lemma SliceOfSlice(s: string, h: nat, n: nat, x: nat, len: nat)
    requires h + n <= |s| && x + len <= n
    ensures s[h..h + n][x..x + len] == s[h + x..h + x + len]
  {
    var l, r := s[h..h + n][x..x + len], s[h + x..h + x + len];
    assert forall i :: 0 <= i < len ==> l[i] == s[h + x + i] == r[i];
  }

  /** `p` is what `a` holds from `h` on. */
  ghost predicate Window(a: string, h: nat, p: string)
  {
    h + |p| <= |a| && p == a[h..h + |p|]
  }

  lemma WindowAt(a: string, h: nat, p: string, i: nat)
    requires Window(a, h, p) && i < |p|
    ensures a[h + i] == p[i]
  {
  }

  /** The texts agree on the first `head` characters and on what follows the windows `p` and `q`. */
  ghost predicate CommonEnds(a: string, b: string, head: nat, p: string, q: string)
  {
    && Window(a, head, p) && Window(b, head, q)
    && a[..head] == b[..head] && a[head + |p|..] == b[head + |q|..]
  }

  lemma WindowsMatch(a: string, b: string, h: nat, p: string, q: string, x: nat, y: nat, len: nat, i: nat, j: nat)
    requires Window(a, h, p) && Window(b, h, q) && Match(p, q, x, y, len) && i == h + x && j == h + y
    ensures Match(a, b, i, j, len)
  {
    SliceOfSlice(a, h, |p|, x, len);
    SliceOfSlice(b, h, |q|, y, len);
    assert a[i..i + len] == p[x..x + len] && b[j..j + len] == q[y..y + len];
  }

  lemma Regroup(w: string, s: string, t: string, r: string)
    ensures w + (s + t + r) == w + s + t + r
  {
    assert w + (s + t + r) == w + s + t + r;
  }

  lemma SplitSuffix(b: string, y: nat, s: string, t: string, r: string)
    requires y <= |b| && b[y..] == s + t + r
    ensures y + |s| + |t| <= |b|
    ensures b[y..y + |s|] == s && b[y + |s| + |t|..] == r
  {
    assert |b| - y == |s| + |t| + |r|;
    assert b[y..y + |s|] == b[y..][..|s|];
    assert b[y + |s| + |t|..] == b[y..][|s| + |t|..];
  }
}
