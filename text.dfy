/** The few operations on Python `str` that the model needs, on `string`
    (`seq<char>`): substring test, `replace(pat, "")` and `split(sep)[-1]`. */
module Text {

  /** `pat` occurs in `s` starting at index `i`. */
  predicate At(s: string, pat: string, i: int) {
    0 <= i && i + |pat| <= |s| && s[i..i + |pat|] == pat
  }

  /** Python's `pat in s`. */
  predicate Contains(s: string, pat: string)
    decreases |s|
  {
    At(s, pat, 0) || (|s| > 0 && Contains(s[1..], pat))
  }

  /** Python's `s.replace(pat, "")`: a left-to-right scan that deletes every
      non-overlapping occurrence of `pat`. */
  function RemoveAll(s: string, pat: string): (r: string)
    requires |pat| > 0
    ensures |r| <= |s|
    decreases |s|
  {
    if |s| < |pat| then s
    else if s[..|pat|] == pat then RemoveAll(s[|pat|..], pat)
    else [s[0]] + RemoveAll(s[1..], pat)
  }

  /** Python's `s.split(sep)[-1]`: the text after the last separator found by
      the left-to-right scan, or all of `s` when there is none. */
  function AfterLast(s: string, sep: string): (r: string)
    requires |sep| > 0
    ensures |r| <= |s| && r == s[|s| - |r|..]
    decreases |s|
  {
    if At(s, sep, 0) then
      var r := AfterLast(s[|sep|..], sep);
      assert s[|sep|..][|s[|sep|..]| - |r|..] == s[|s| - |r|..];
      r
    else if |s| > 0 && Contains(s[1..], sep) then
      var r := AfterLast(s[1..], sep);
      assert s[1..][|s[1..]| - |r|..] == s[|s| - |r|..];
      r
    else
      s
  }

  /** The result holds no separator: the scan went on to the last one. */
  lemma {:induction false} AfterLastHasNoSeparator(s: string, sep: string)
    requires |sep| > 0
    ensures !Contains(AfterLast(s, sep), sep)
    decreases |s|
  {
    if At(s, sep, 0) {
      AfterLastHasNoSeparator(s[|sep|..], sep);
    } else if |s| > 0 && Contains(s[1..], sep) {
      AfterLastHasNoSeparator(s[1..], sep);
    }
  }

  /** With no separator in `s`, `split` returns `s` alone. */
  lemma AfterLastAbsent(s: string, sep: string)
    requires |sep| > 0 && !Contains(s, sep)
    ensures AfterLast(s, sep) == s
  {
  }

  /** With the separator at the front, the scan goes on behind it. */
  lemma AfterLastAtFront(s: string, sep: string)
    requires |sep| > 0 && At(s, sep, 0)
    ensures s == sep + s[|sep|..]
    ensures AfterLast(s, sep) == AfterLast(s[|sep|..], sep)
  {
  }

  /** Without the separator at the front, the scan moves one step on. */
  lemma AfterLastFurtherOn(s: string, sep: string)
    requires |sep| > 0 && Contains(s, sep) && !At(s, sep, 0)
    ensures |s| > 0 && Contains(s[1..], sep) && s == [s[0]] + s[1..]
    ensures AfterLast(s, sep) == AfterLast(s[1..], sep)
  {
  }

  /** Putting `w` before a split that ends with `sep` keeps that shape. */
  lemma PrependCut(w: string, v: string, r: string, sep: string)
    requires |sep| <= |v| && v[|v| - |sep|..] == sep
    ensures w + (v + r) == (w + v) + r
    ensures (w + v)[|w + v| - |sep|..] == sep
  {
    assert (w + v)[|w + v| - |sep|..] == v[|v| - |sep|..];
  }

  /** When `s` has a separator, it is what the scan cut off, ending with the
      last separator, followed by the result. */
  lemma {:induction false} CutOff(s: string, sep: string) returns (u: string)
    requires |sep| > 0 && Contains(s, sep)
    ensures s == u + AfterLast(s, sep)
    ensures |sep| <= |u| && u[|u| - |sep|..] == sep
    decreases |s|
  {
    if At(s, sep, 0) {
      var t := s[|sep|..];
      AfterLastAtFront(s, sep);
      if Contains(t, sep) {
        var v := CutOff(t, sep);
        PrependCut(sep, v, AfterLast(t, sep), sep);
        u := sep + v;
      } else {
        AfterLastAbsent(t, sep);
        u := sep;
      }
    } else {
      AfterLastFurtherOn(s, sep);
      var v := CutOff(s[1..], sep);
      PrependCut([s[0]], v, AfterLast(s[1..], sep), sep);
      u := [s[0]] + v;
    }
  }

  /** When `s` has a separator, the result starts right behind one. */
  lemma AfterLastFollowsSeparator(s: string, sep: string)
    requires |sep| > 0 && Contains(s, sep)
    ensures At(s, sep, |s| - |AfterLast(s, sep)| - |sep|)
  {
    var u := CutOff(s, sep);
    var r := AfterLast(s, sep);
    assert s[..|u|] == u;
    assert s[|u| - |sep|..|u|] == u[|u| - |sep|..];
  }

  /** An occurrence of a pattern is an occurrence of each of its prefixes. */
  lemma {:induction false} ContainsPrefix(s: string, pat: string, k: nat)
    requires k <= |pat| && Contains(s, pat)
    ensures Contains(s, pat[..k])
    decreases |s|
  {
    if At(s, pat, 0) {
      assert s[..k] == pat[..k];
    } else {
      ContainsPrefix(s[1..], pat, k);
      if !At(s, pat[..k], 0) {
        assert Contains(s[1..], pat[..k]);
      }
    }
  }

  /** `Contains` holds exactly when the pattern occurs at some index. */
  lemma {:induction false} ContainsAt(s: string, pat: string) returns (i: nat)
    requires Contains(s, pat)
    ensures At(s, pat, i)
    decreases |s|
  {
    if At(s, pat, 0) {
      i := 0;
    } else {
      var j := ContainsAt(s[1..], pat);
      i := j + 1;
      assert s[i..i + |pat|] == s[1..][j..j + |pat|];
    }
  }

  /** An occurrence anywhere makes `Contains` true. */
  lemma {:induction false} AtContains(s: string, pat: string, i: int)
    requires At(s, pat, i)
    ensures Contains(s, pat)
    decreases i
  {
    if i > 0 {
      assert s[1..][i - 1..i - 1 + |pat|] == s[i..i + |pat|];
      AtContains(s[1..], pat, i - 1);
    }
  }

  /** A string without the character `c` contains no pattern that has `c`. */
  lemma {:induction false} NoCharNoMatch(s: string, pat: string, c: char)
    requires c in pat && c !in s
    ensures !Contains(s, pat)
    decreases |s|
  {
    if |s| > 0 {
      NoCharNoMatch(s[1..], pat, c);
    }
  }

  /** Deleting a pattern that does not occur leaves the string as it is. */
  lemma {:induction false} RemoveAbsent(s: string, pat: string)
    requires |pat| > 0 && !Contains(s, pat)
    ensures RemoveAll(s, pat) == s
    decreases |s|
  {
    if |s| >= |pat| {
      assert !At(s, pat, 0);
      RemoveAbsent(s[1..], pat);
      assert s == [s[0]] + s[1..];
    }
  }

  /** An occurrence at the front is deleted and the scan goes on behind it. */
  lemma RemoveLeading(pat: string, s: string)
    requires |pat| > 0
    ensures RemoveAll(pat + s, pat) == RemoveAll(s, pat)
  {
    assert (pat + s)[..|pat|] == pat;
    assert (pat + s)[|pat|..] == s;
  }

  /** When the first character of `pat` does not occur in `s`, the scan over
      `s + pat` meets the only occurrence at its very end. */
  lemma {:induction false} RemoveTrailing(s: string, pat: string)
    requires |pat| > 0 && pat[0] !in s
    ensures RemoveAll(s + pat, pat) == s
    decreases |s|
  {
    if s == [] {
      assert s + pat == pat;
      assert pat[|pat|..] == [];
    } else {
      assert (s + pat)[0] == s[0] != pat[0];
      assert (s + pat)[1..] == s[1..] + pat;
      RemoveTrailing(s[1..], pat);
      assert s == [s[0]] + s[1..];
    }
  }

  /** Splitting on a one-character separator `c` keeps what follows its
      last occurrence. */
  lemma {:induction false} AfterLastChar(u: string, c: char, v: string)
    requires c !in v
    ensures AfterLast(u + [c] + v, [c]) == v
    decreases |u|
  {
    var s := u + [c] + v;
    NoCharNoMatch(v, [c], c);
    if u == [] {
      assert At(s, [c], 0) && s[1..] == v;
      AfterLastAbsent(v, [c]);
    } else {
      assert s[1..] == u[1..] + [c] + v;
      AfterLastChar(u[1..], c, v);
      if !At(s, [c], 0) {
        assert At(s[1..], [c], |u| - 1);
        AtContains(s[1..], [c], |u| - 1);
      }
    }
  }

  /** `os.path.join(dir, name)` with the POSIX separator: an absolute name
      replaces the directory, otherwise exactly one `/` stands between them
      unless the directory is empty. */
  function JoinPath(dir: string, name: string): (p: string)
    ensures |name| > 0 && name[0] == '/' ==> p == name
    ensures !(|name| > 0 && name[0] == '/') ==>
      |dir| + |name| <= |p| <= |dir| + |name| + 1 &&
      p[..|dir|] == dir && p[|p| - |name|..] == name
    ensures !(|name| > 0 && name[0] == '/') && dir != [] ==>
      p[|p| - |name| - 1] == '/' && (|p| == |dir| + |name| <==> dir[|dir| - 1] == '/')
  {
    if |name| > 0 && name[0] == '/' then name
    else if dir == [] || dir[|dir| - 1] == '/' then dir + name
    else dir + "/" + name
  }

  /** `os.path.basename(p)`: what follows the last `/`. */
  function Basename(p: string): (b: string)
    ensures |b| <= |p| && b == p[|p| - |b|..]
  {
    AfterLast(p, "/")
  }

  /** A character of `s` is an occurrence of the one-character pattern. */
  lemma CharContains(s: string, c: char)
    requires c in s
    ensures Contains(s, [c])
  {
    var i :| 0 <= i < |s| && s[i] == c;
    assert s[i..i + 1] == [c];
    AtContains(s, [c], i);
  }

  /** The base name holds no `/`. */
  lemma BasenameHasNoSlash(p: string)
    ensures '/' !in Basename(p)
  {
    AfterLastHasNoSeparator(p, "/");
    if '/' in Basename(p) {
      CharContains(Basename(p), '/');
    }
  }

  /** A path without `/` is its own base name. */
  lemma BasenameWithoutSlash(p: string)
    requires '/' !in p
    ensures Basename(p) == p
  {
    NoCharNoMatch(p, "/", '/');
    AfterLastAbsent(p, "/");
  }

  /** When `p` has a `/`, one stands right before the base name. */
  lemma BasenameAfterSlash(p: string)
    requires '/' in p
    ensures |Basename(p)| < |p| && p[|p| - |Basename(p)| - 1] == '/'
  {
    CharContains(p, '/');
    AfterLastFollowsSeparator(p, "/");
  }
}
