/** Literal string operations shared by the rewriting pipeline and the
    conversation index: substring tests, non-overlapping counting and
    replacement, leading-whitespace stripping and left padding. Strings are
    sequences of Unicode scalar values, as in Python 3 `str`. */
module Strings {

  /** `p` is a prefix of `s`. */
  predicate StartsWith(s: string, p: string)
  {
    |p| <= |s| && s[..|p|] == p
  }

  /** `p` is a suffix of `s` (JavaScript `endsWith`). */
  predicate EndsWith(s: string, p: string)
  {
    |p| <= |s| && s[|s| - |p|..] == p
  }

  /** `p` occurs in `s` as a contiguous substring: Python's `p in s` and
      JavaScript's `s.includes(p)`. The empty pattern occurs in every string. */
  predicate Contains(s: string, p: string)
    decreases |s|
  {
    StartsWith(s, p) || (|s| > 0 && Contains(s[1..], p))
  }

  /** Reference definition of an occurrence: `p` starts at position `i` of `s`. */
  ghost predicate OccursAt(s: string, p: string, i: int)
  {
    0 <= i && i + |p| <= |s| && s[i..i + |p|] == p
  }

  /** The scanning definition of `Contains` agrees with the positional one. */
  lemma {:induction false} ContainsIffOccurs(s: string, p: string)
    ensures Contains(s, p) <==> exists i :: OccursAt(s, p, i)
    decreases |s|
  {
    if Contains(s, p) {
      if StartsWith(s, p) {
        assert OccursAt(s, p, 0);
      } else {
        ContainsIffOccurs(s[1..], p);
        var i :| OccursAt(s[1..], p, i);
        assert s[1..][i..i + |p|] == s[i + 1..i + 1 + |p|];
        assert OccursAt(s, p, i + 1);
      }
    }
    if exists i :: OccursAt(s, p, i) {
      var i :| OccursAt(s, p, i);
      if i == 0 {
        assert StartsWith(s, p);
      } else {
        assert s[1..][i - 1..i - 1 + |p|] == s[i..i + |p|];
        assert OccursAt(s[1..], p, i - 1);
        ContainsIffOccurs(s[1..], p);
      }
    }
  }

  /** A string that contains `p + q` contains `p`. */
  lemma {:induction false} ContainsLonger(s: string, p: string, q: string)
    requires Contains(s, p + q)
    ensures Contains(s, p)
    decreases |s|
  {
    if StartsWith(s, p + q) {
      assert s[..|p|] == (p + q)[..|p|] == p;
    } else {
      ContainsLonger(s[1..], p, q);
    }
  }

  /** An occurrence in a suffix is an occurrence in the whole string. */
  lemma {:induction false} ContainsInSuffix(s: string, k: nat, p: string)
    requires k <= |s|
    requires Contains(s[k..], p)
    ensures Contains(s, p)
    decreases k
  {
    if k > 0 {
      assert s[1..][k - 1..] == s[k..];
      ContainsInSuffix(s[1..], k - 1, p);
    }
  }

  /** An occurrence in `a` is an occurrence in `a + b`. */
  lemma ContainsExtend(a: string, b: string, p: string)
    requires Contains(a, p)
    ensures Contains(a + b, p)
  {
    ContainsIffOccurs(a, p);
    var i :| OccursAt(a, p, i);
    assert (a + b)[i..i + |p|] == a[i..i + |p|];
    assert OccursAt(a + b, p, i);
    ContainsIffOccurs(a + b, p);
  }

  /** An occurrence in `a + b` lies in `a`, lies in `b`, or starts in `a` and
      runs into `b`. */
  lemma {:induction false} ContainsConcat(a: string, b: string, p: string)
    ensures Contains(a + b, p) ==> Contains(a, p) || Contains(b, p) || Straddles(a, b, p)
    decreases |a|
  {
    if a == [] {
      assert a + b == b;
    } else if StartsWith(a + b, p) {
      if |p| <= |a| {
        assert a[..|p|] == (a + b)[..|p|];
      } else {
        assert (a + b)[0..] == a + b;
        assert StartsWith((a + b)[0..], p);
      }
    } else {
      assert (a + b)[1..] == a[1..] + b;
      ContainsConcat(a[1..], b, p);
      if Straddles(a[1..], b, p) {
        var i :| 0 <= i < |a[1..]| && |a[1..]| - i < |p| && StartsWith((a[1..] + b)[i..], p);
        assert (a + b)[i + 1..] == (a[1..] + b)[i..];
        assert StartsWith((a + b)[i + 1..], p);
      }
    }
  }

  /** `p` starts inside `a` and ends inside `b`. */
  ghost predicate Straddles(a: string, b: string, p: string)
  {
    exists i :: 0 <= i < |a| && |a| - i < |p| && StartsWith((a + b)[i..], p)
  }

  /** A straddling occurrence begins with a character of `a` equal to `p[0]`
      within the last `|p| - 1` positions of `a`. */
  lemma StraddleStart(a: string, b: string, p: string)
    ensures Straddles(a, b, p) ==> exists i :: 0 <= i < |a| && |a| - i < |p| && a[i] == p[0]
  {
    if Straddles(a, b, p) {
      var i :| 0 <= i < |a| && |a| - i < |p| && StartsWith((a + b)[i..], p);
      assert (a + b)[i..][0] == a[i];
    }
  }

  /** An occurrence straddling a single leading character `c` begins with `c`
      and continues with a prefix of `u`. */
  lemma HeadStraddle(c: char, u: string, p: string)
    ensures Straddles([c], u, p) ==> |p| >= 2 && c == p[0] && StartsWith(u, p[1..])
  {
    if Straddles([c], u, p) {
      var t := [c] + u;
      assert StartsWith(t[0..], p);
      assert t[1..] == u;
      assert u[..|p| - 1] == t[1..|p|] == p[1..];
    }
  }

  /** A prefix of `a + x` is a prefix of `a`, or has `a` as a prefix. */
  lemma PrefixOfConcat(a: string, x: string, q: string)
    ensures StartsWith(a + x, q) ==> StartsWith(a, q) || StartsWith(q, a)
  {
    if StartsWith(a + x, q) {
      if |q| <= |a| {
        assert (a + x)[..|q|] == a[..|q|];
      } else {
        assert (a + x)[..|q|][..|a|] == a;
      }
    }
  }

  /** Strings that differ at a position they both have are not prefixes of
      each other. */
  lemma DifferAt(s: string, p: string, i: nat)
    requires i < |s| && i < |p| && s[i] != p[i]
    ensures !StartsWith(s, p) && !StartsWith(p, s)
  {
    assert |p| <= |s| ==> s[..|p|][i] != p[i];
    assert |s| <= |p| ==> p[..|s|][i] != s[i];
  }

  /** No character of `p` occurs in `r`. */
  ghost predicate SharesNoChar(r: string, p: string)
  {
    forall i, j :: 0 <= i < |r| && 0 <= j < |p| ==> r[i] != p[j]
  }

  /** A non-empty pattern occurs only where its first character does. */
  lemma ContainsFirstChar(s: string, p: string)
    requires |p| > 0
    ensures Contains(s, p) ==> exists i :: 0 <= i < |s| && s[i] == p[0]
  {
    ContainsIffOccurs(s, p);
    if Contains(s, p) {
      var i :| OccursAt(s, p, i);
      assert s[i..i + |p|][0] == s[i];
    }
  }

  /** Number of non-overlapping occurrences of `w` in `s`, scanning left to
      right: Python's `s.count(w)` for a non-empty `w`. */
  function Count(s: string, w: string): nat
    requires |w| > 0
    decreases |s|
  {
    if |s| < |w| then 0
    else if s[..|w|] == w then 1 + Count(s[|w|..], w)
    else Count(s[1..], w)
  }

  /** `w` is counted at least once exactly when it occurs. */
  lemma {:induction false} CountPositiveIff(s: string, w: string)
    requires |w| > 0
    ensures Count(s, w) > 0 <==> Contains(s, w)
    decreases |s|
  {
    if |s| >= |w| && s[..|w|] != w {
      CountPositiveIff(s[1..], w);
    } else if |s| < |w| && Contains(s, w) {
      assert !StartsWith(s, w);
      NoRoomNoContains(s[1..], w);
    }
  }

  /** A pattern longer than the string does not occur in it. */
  lemma {:induction false} NoRoomNoContains(s: string, w: string)
    requires |s| < |w|
    ensures !Contains(s, w)
    decreases |s|
  {
    if |s| > 0 {
      NoRoomNoContains(s[1..], w);
    }
  }

  /** The counted occurrences fit in the string side by side. */
  lemma {:induction false} CountBound(s: string, w: string)
    requires |w| > 0
    ensures Count(s, w) * |w| <= |s|
    decreases |s|
  {
    if |s| >= |w| {
      if s[..|w|] == w {
        CountBound(s[|w|..], w);
      } else {
        CountBound(s[1..], w);
      }
    }
  }

  /** Every non-overlapping occurrence of `w` in `s` replaced by `r`, scanning
      left to right: Python's `s.replace(w, r)`, and `re.sub(w, r, s)` when
      `w` and `r` hold no regular-expression syntax. */
  function ReplaceAll(s: string, w: string, r: string): string
    requires |w| > 0
    decreases |s|
  {
    if |s| < |w| then s
    else if s[..|w|] == w then r + ReplaceAll(s[|w|..], w, r)
    else [s[0]] + ReplaceAll(s[1..], w, r)
  }

  /** Replacing a pattern that does not occur leaves the string unchanged. */
  lemma {:induction false} ReplaceAbsent(s: string, w: string, r: string)
    requires |w| > 0
    requires !Contains(s, w)
    ensures ReplaceAll(s, w, r) == s
    decreases |s|
  {
    if |s| >= |w| {
      assert !StartsWith(s, w);
      ReplaceAbsent(s[1..], w, r);
      assert [s[0]] + s[1..] == s;
    }
  }

  /** Each counted occurrence changes the length by `|r| - |w|`. */
  lemma {:induction false} ReplaceAllLength(s: string, w: string, r: string)
    requires |w| > 0
    ensures |ReplaceAll(s, w, r)| == |s| + Count(s, w) * (|r| - |w|)
    decreases |s|
  {
    if |s| >= |w| {
      var d := |r| - |w|;
      if s[..|w|] == w {
        var rest := s[|w|..];
        var c := Count(rest, w);
        ReplaceAllLength(rest, w, r);
        assert |ReplaceAll(s, w, r)| == |r| + |ReplaceAll(rest, w, r)|;
        assert Count(s, w) == 1 + c;
        MulSucc(c, d);
      } else {
        ReplaceAllLength(s[1..], w, r);
        assert |ReplaceAll(s, w, r)| == 1 + |ReplaceAll(s[1..], w, r)|;
        assert Count(s, w) == Count(s[1..], w);
      }
    }
  }

  lemma MulSucc(c: int, d: int)
    ensures (1 + c) * d == d + c * d
  {
  }

  /** The first character of a replacement result: the replacement's own
      first character when `s` starts with `w`, otherwise that of `s`. */
  lemma ReplaceAllHead(s: string, w: string, r: string)
    requires |w| > 0 && |r| > 0 && |s| > 0
    ensures |ReplaceAll(s, w, r)| > 0
    ensures ReplaceAll(s, w, r)[0] == if StartsWith(s, w) then r[0] else s[0]
  {
  }

  /** No character among the last `|p| - 1` of `r` can begin `p`, so no
      occurrence of `p` starts inside `r` and runs past its end. */
  ghost predicate NoStraddleFrom(r: string, p: string)
    requires |p| > 0
  {
    forall i :: 0 <= i < |r| && |r| - i < |p| ==> r[i] != p[0]
  }

  /** A prefix made only of characters the replacement never uses was
      already a prefix before the replacement. */
  lemma {:induction false} ReplaceAllKeepsPrefix(t: string, w: string, r: string, q: string)
    requires |w| > 0 && |r| > 0 && SharesNoChar(r, q)
    ensures StartsWith(ReplaceAll(t, w, r), q) ==> StartsWith(t, q)
    decreases |t|
  {
    if |q| > 0 && |t| >= |w| {
      var u := ReplaceAll(t, w, r);
      if t[..|w|] == w {
        assert u[0] == r[0];
      } else {
        var v := ReplaceAll(t[1..], w, r);
        assert SharesNoChar(r, q[1..]) by {
          forall i, j | 0 <= i < |r| && 0 <= j < |q[1..]|
            ensures r[i] != q[1..][j]
          {
            assert q[1..][j] == q[j + 1];
          }
        }
        ReplaceAllKeepsPrefix(t[1..], w, r, q[1..]);
        assert u == [t[0]] + v;
        assert u[1..] == v;
        if StartsWith(u, q) {
          assert StartsWith(v, q[1..]) by {
            assert v[..|q| - 1] == u[..|q|][1..];
          }
          assert t[..|q|] == [t[0]] + t[1..][..|q| - 1];
        }
      }
    }
  }

  /** Replacing `w` by a replacement made of other characters than those of
      `p` creates no occurrence of `p`. */
  lemma {:induction false} ReplaceAllKeepsAbsent(s: string, w: string, r: string, p: string)
    requires |w| > 0 && |r| > 0 && |p| > 0 && SharesNoChar(r, p)
    ensures !Contains(s, p) ==> !Contains(ReplaceAll(s, w, r), p)
    decreases |s|
  {
    if |s| >= |w| {
      ContainsFirstChar(r, p);
      if s[..|w|] == w {
        var rest := s[|w|..];
        var u := ReplaceAll(rest, w, r);
        if Contains(rest, p) {
          ContainsInSuffix(s, |w|, p);
        }
        ReplaceAllKeepsAbsent(rest, w, r, p);
        ContainsConcat(r, u, p);
        StraddleStart(r, u, p);
      } else {
        var rest := s[1..];
        var u := ReplaceAll(rest, w, r);
        ReplaceAllKeepsAbsent(rest, w, r, p);
        ContainsConcat([s[0]], u, p);
        HeadStraddle(s[0], u, p);
        if |p| > 1 {
          NoRoomNoContains([s[0]], p);
        } else {
          assert StartsWith([s[0]], p) ==> s[..1] == p;
          NoRoomNoContains([], p);
        }
        assert SharesNoChar(r, p[1..]) by {
          forall i, j | 0 <= i < |r| && 0 <= j < |p[1..]|
            ensures r[i] != p[1..][j]
          {
            assert p[1..][j] == p[j + 1];
          }
        }
        ReplaceAllKeepsPrefix(rest, w, r, p[1..]);
        assert StartsWith(rest, p[1..]) && s[0] == p[0] ==> s[..|p|] == [s[0]] + rest[..|p| - 1] == p;
      }
    }
  }

  /** Replacing a two-character `w` by `r` removes every occurrence of a
      pattern `p` that begins with `w`, provided `r` neither holds `p`, nor
      can begin it at its end, nor can complete it behind a leading `p[0]`. */
  lemma {:induction false} ReplaceAllRemoves(s: string, w: string, r: string, p: string)
    requires |w| == 2 && |r| > 0 && |p| >= 2 && p[..2] == w
    requires !Contains(r, p) && NoStraddleFrom(r, p)
    requires !StartsWith(r, p[1..]) && !StartsWith(p[1..], r)
    ensures !Contains(ReplaceAll(s, w, r), p)
    decreases |s|
  {
    if |s| < |w| {
      NoRoomNoContains(s, p);
    } else if s[..|w|] == w {
      var rest := s[|w|..];
      var u := ReplaceAll(rest, w, r);
      ReplaceAllRemoves(rest, w, r, p);
      ContainsConcat(r, u, p);
      StraddleStart(r, u, p);
    } else {
      var rest := s[1..];
      var u := ReplaceAll(rest, w, r);
      ReplaceAllRemoves(rest, w, r, p);
      ContainsConcat([s[0]], u, p);
      HeadStraddle(s[0], u, p);
      NoRoomNoContains([s[0]], p);
      if |rest| >= 2 && rest[..2] == w {
        assert u == r + ReplaceAll(rest[2..], w, r);
        PrefixOfConcat(r, ReplaceAll(rest[2..], w, r), p[1..]);
      } else if |rest| > 0 {
        if |rest| >= 2 {
          ReplaceAllHead(rest, w, r);
        }
        assert u[0] == rest[0];
        assert s[..2] == [s[0], rest[0]];
      }
    }
  }

  /** The whitespace characters of Python's `str.isspace`. */
  predicate IsSpace(c: char)
  {
    ('\U{0009}' <= c <= '\U{000D}') || ('\U{001C}' <= c <= '\U{0020}')
    || c == '\U{0085}' || c == '\U{00A0}' || c == '\U{1680}'
    || ('\U{2000}' <= c <= '\U{200A}') || c == '\U{2028}' || c == '\U{2029}'
    || c == '\U{202F}' || c == '\U{205F}' || c == '\U{3000}'
  }

  /** Python's `s.lstrip()`: `s` without its leading whitespace. */
  function LStrip(s: string): (r: string)
    ensures |r| <= |s| && r == s[|s| - |r|..]
    ensures forall i :: 0 <= i < |s| - |r| ==> IsSpace(s[i])
    ensures r != [] ==> !IsSpace(r[0])
    decreases |s|
  {
    if |s| > 0 && IsSpace(s[0]) then LStrip(s[1..]) else s
  }

  /** JavaScript's `s.padStart(n, [c])`: `c` repeated in front of `s` up to
      length `n`; a string already that long is returned as it is. */
  function PadStart(s: string, n: nat, c: char): (r: string)
    ensures |r| == if |s| < n then n else |s|
    ensures r[|r| - |s|..] == s
    ensures forall i :: 0 <= i < |r| - |s| ==> r[i] == c
  {
    if |s| < n then seq(n - |s|, _ => c) + s else s
  }

  /** JavaScript's `s.replace(p, r)` with a string pattern: only the first
      occurrence of `p` is replaced. */
  function ReplaceFirst(s: string, p: string, r: string): string
    requires |p| > 0
    decreases |s|
  {
    if |s| < |p| then s
    else if s[..|p|] == p then r + s[|p|..]
    else [s[0]] + ReplaceFirst(s[1..], p, r)
  }

  /** Stripping an extension that the name ends with and that no earlier
      character could begin gives back the stem. */
  lemma {:induction false} ReplaceFirstSuffix(stem: string, ext: string)
    requires |ext| > 0
    requires forall i :: 0 <= i < |stem| ==> stem[i] != ext[0]
    ensures ReplaceFirst(stem + ext, ext, "") == stem
    decreases |stem|
  {
    var s := stem + ext;
    if stem == [] {
      assert s[..|ext|] == ext;
      assert s[|ext|..] == [];
    } else {
      assert s[..|ext|][0] == stem[0] != ext[0];
      assert s[1..] == stem[1..] + ext;
      ReplaceFirstSuffix(stem[1..], ext);
      assert [stem[0]] + stem[1..] == stem;
    }
  }
}
