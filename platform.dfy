/**
 * The platform classifier, `platform()` in src/index.js.
 *
 * The host is described by the `navigator.platform` string, or by its absence
 * when there is no `navigator` global.  The two regular expressions of the
 * source, `/Win/i` and `/(Mac|iPhone|iPod|iPad)/i`, are plain case-insensitive
 * substring searches; their patterns are ASCII, and a case-insensitive
 * JavaScript regular expression without the `u` flag only folds a character
 * onto an ASCII letter when that character is itself ASCII, so comparing after
 * ASCII lower-casing is exact.
 */
module Platform {
  import opened Wrappers

  datatype Tag = Mac | Win | Other

  /** The if/else chain of `platform()`: Mac is tested before Windows. */
  function FromFlags(isMacLike: bool, isWindows: bool): (t: Tag)
    ensures t == Mac <==> isMacLike
    ensures t == Win <==> !isMacLike && isWindows
    ensures t == Other <==> !isMacLike && !isWindows
  {
    if isMacLike then Mac
    else if isWindows then Win
    else Other
  }

  /** ASCII lower-casing; every other character is left alone. */
  function Lower(c: char): (l: char)
    ensures 'A' <= c <= 'Z' ==> 'a' <= l <= 'z'
    ensures !('A' <= c <= 'Z') ==> l == c
  {
    if 'A' <= c <= 'Z' then (c as int + 32) as char else c
  }

  /** `t` starts with `pat`, ignoring ASCII case. */
  predicate StartsWithFold(t: string, pat: string)
  {
    |pat| <= |t| && forall j :: 0 <= j < |pat| ==> Lower(t[j]) == Lower(pat[j])
  }

  /** `new RegExp(pat, "i").test(s)` for an ASCII literal pattern `pat`: try every offset in turn. */
  predicate ContainsFold(s: string, pat: string)
    decreases |s|
  {
    |pat| <= |s| && (StartsWithFold(s, pat) || ContainsFold(s[1..], pat))
  }

  /** The search finds `pat` exactly when `pat` starts at some offset of `s`. */
  lemma {:induction false} ContainsFoldIffSomeOffset(s: string, pat: string)
    ensures ContainsFold(s, pat) <==> exists i :: 0 <= i <= |s| && StartsWithFold(s[i..], pat)
    decreases |s|
  {
    assert s[0..] == s;
    if |s| < |pat| {
      assert forall i :: 0 <= i <= |s| ==> !StartsWithFold(s[i..], pat);
    } else if !StartsWithFold(s, pat) {
      ContainsFoldIffSomeOffset(s[1..], pat);
      SuffixShift(s);
      if ContainsFold(s[1..], pat) {
        var i :| 0 <= i <= |s| - 1 && StartsWithFold(s[1..][i..], pat);
        assert StartsWithFold(s[i + 1..], pat);
      }
      forall i | 1 <= i <= |s| && StartsWithFold(s[i..], pat)
        ensures ContainsFold(s[1..], pat)
      {
        assert StartsWithFold(s[1..][i - 1..], pat);
      }
    }
  }

  /** The suffixes of `s[1..]` are the suffixes of `s` but `s` itself. */
  lemma SuffixShift(s: string)
    requires |s| >= 1
    ensures forall i :: 0 <= i <= |s| - 1 ==> s[1..][i..] == s[i + 1..]
  {
  }

  /** `/Win/i.test(navigator.platform)`, false without a `navigator`. */
  predicate IsWindows(navigator: Option<string>)
  {
    navigator.Some? && ContainsFold(navigator.value, "Win")
  }

  /** `/(Mac|iPhone|iPod|iPad)/i.test(navigator.platform)`, false without a `navigator`. */
  predicate IsMacLike(navigator: Option<string>)
  {
    navigator.Some? &&
    (ContainsFold(navigator.value, "Mac") || ContainsFold(navigator.value, "iPhone") ||
     ContainsFold(navigator.value, "iPod") || ContainsFold(navigator.value, "iPad"))
  }

  /** `platform()`: total, and `other` when there is no `navigator`. */
  function Classify(navigator: Option<string>): (t: Tag)
    ensures navigator.None? ==> t == Other
    ensures t == Mac <==> IsMacLike(navigator)
    ensures t == Win <==> !IsMacLike(navigator) && IsWindows(navigator)
  {
    FromFlags(IsMacLike(navigator), IsWindows(navigator))
  }

  /** A platform string that matches both patterns is classified as Mac. */
  lemma MacBeforeWindows(p: string)
    requires IsMacLike(Some(p)) && IsWindows(Some(p))
    ensures Classify(Some(p)) == Mac
  {
  }

  /** A pattern with a letter that occurs nowhere in `s` is not found in `s`. */
  lemma LetterAbsent(s: string, pat: string, k: nat)
    requires k < |pat|
    requires forall i :: 0 <= i < |s| ==> Lower(s[i]) != Lower(pat[k])
    ensures !ContainsFold(s, pat)
  {
    ContainsFoldIffSomeOffset(s, pat);
    forall i | 0 <= i <= |s| ensures !StartsWithFold(s[i..], pat) {
      if i + k < |s| {
        assert s[i..][k] == s[i + k];
      }
    }
  }

  /** Typical `navigator.platform` values of Apple hosts. */
  lemma MacHosts()
    ensures Classify(Some("MacIntel")) == Mac
    ensures Classify(Some("iPhone")) == Mac
  {
    assert StartsWithFold("MacIntel", "Mac");
    assert StartsWithFold("iPhone", "iPhone");
  }

  /** None of the Apple patterns occurs in `p` when the given letters do not. */
  lemma NotMacLike(p: string)
    requires forall i :: 0 <= i < |p| ==> Lower(p[i]) != 'm' && Lower(p[i]) != 'p'
    ensures !IsMacLike(Some(p))
  {
    LetterAbsent(p, "Mac", 0);
    LetterAbsent(p, "iPhone", 1);
    LetterAbsent(p, "iPod", 1);
    LetterAbsent(p, "iPad", 1);
  }

  /** The usual `navigator.platform` value of a Windows host. */
  lemma WindowsHost()
    ensures Classify(Some("Win32")) == Win
  {
    assert StartsWithFold("Win32", "Win");
    NotMacLike("Win32");
  }

  /** A host string without the letters m, p and w matches neither pattern. */
  lemma OtherHost(p: string)
    requires forall i :: 0 <= i < |p| ==> Lower(p[i]) !in {'m', 'p', 'w'}
    ensures Classify(Some(p)) == Other
  {
    NotMacLike(p);
    LetterAbsent(p, "Win", 0);
  }
}
