/** The string operations of Rust's `str` that the source relies on:
    `starts_with`, `ends_with`, `contains`, `strip_prefix`,
    `trim_end_matches`, `split` and `to_lowercase` (ASCII letters only). */
module Strings {
  import opened Common

  predicate IsPrefix(p: string, s: string) {
    |p| <= |s| && s[..|p|] == p
  }

  predicate EndsWith(s: string, suffix: string) {
    |suffix| <= |s| && s[|s| - |suffix|..] == suffix
  }

  /** `t` occurs in `s` starting at index `i`. */
  predicate OccursAt(s: string, t: string, i: int) {
    0 <= i && i + |t| <= |s| && s[i..i + |t|] == t
  }

  /** `s.contains(t)`: `t` is a substring of `s`. */
  predicate Contains(s: string, t: string) {
    exists i | 0 <= i <= |s| - |t| :: OccursAt(s, t, i)
  }

  /** `s.strip_prefix(p)`. */
  function StripPrefix(s: string, p: string): (r: Option<string>)
    ensures r.Some? <==> IsPrefix(p, s)
    ensures r.Some? ==> p + r.value == s
  {
    if IsPrefix(p, s) then
      assert s == s[..|p|] + s[|p|..];
      Some(s[|p|..])
    else None
  }

  /** `pat` repeated `k` times. */
  function Repeat(pat: string, k: nat): string {
    if k == 0 then [] else pat + Repeat(pat, k - 1)
  }

  /** `s.trim_end_matches(pat)`: removes every trailing repetition of `pat`.
      An empty pattern leaves `s` as it is. */
  function TrimEndMatches(s: string, pat: string): (r: string)
    ensures IsPrefix(r, s)
    ensures pat != [] ==> !EndsWith(r, pat)
    ensures pat == [] ==> r == s
    decreases |s|
  {
    if pat != [] && EndsWith(s, pat) then TrimEndMatches(s[..|s| - |pat|], pat)
    else s
  }

  /** What `trim_end_matches` removes is a whole number of copies of `pat`. */
  lemma {:induction false} TrimEndMatchesRemovesCopies(s: string, pat: string)
    ensures exists k: nat :: s == TrimEndMatches(s, pat) + Repeat(pat, k)
    decreases |s|
  {
    if pat != [] && EndsWith(s, pat) {
      var t := s[..|s| - |pat|];
      TrimEndMatchesRemovesCopies(t, pat);
      var k: nat :| t == TrimEndMatches(t, pat) + Repeat(pat, k);
      RepeatSnoc(pat, k);
      assert s == t + pat;
      assert s == TrimEndMatches(s, pat) + Repeat(pat, k + 1);
    } else {
      assert s == TrimEndMatches(s, pat) + Repeat(pat, 0);
    }
  }

  lemma {:induction false} RepeatSnoc(pat: string, k: nat)
    ensures Repeat(pat, k + 1) == Repeat(pat, k) + pat
  {
    if k > 0 {
      RepeatSnoc(pat, k - 1);
    }
  }

  /** Index of the first character of `s` in `cs`, or `|s|` if there is none. */
  function IndexOfAny(s: string, cs: set<char>): (r: nat)
    ensures r <= |s|
    ensures r < |s| ==> s[r] in cs
    ensures forall j :: 0 <= j < r ==> s[j] !in cs
  {
    if s == [] then 0
    else if s[0] in cs then 0
    else 1 + IndexOfAny(s[1..], cs)
  }

  /** The first index of a character from `cs` is determined by where it occurs. */
  lemma IndexOfAnyIs(s: string, cs: set<char>, k: nat)
    requires k <= |s| && (k < |s| ==> s[k] in cs)
    requires forall j :: 0 <= j < k ==> s[j] !in cs
    ensures IndexOfAny(s, cs) == k
  {
  }

  /** `s.split(sep)`: the pieces between separators; always at least one. */
  function Split(s: string, sep: char): (r: seq<string>)
    ensures |r| >= 1
    ensures forall k :: 0 <= k < |r| ==> sep !in r[k]
    decreases |s|
  {
    var i := IndexOfAny(s, {sep});
    if i == |s| then [s] else [s[..i]] + Split(s[i + 1..], sep)
  }

  /** Pieces glued together with `sep` between consecutive ones. */
  function JoinWith(pieces: seq<string>, sep: char): string
    requires |pieces| >= 1
  {
    if |pieces| == 1 then pieces[0] else pieces[0] + [sep] + JoinWith(pieces[1..], sep)
  }

  /** Splitting loses nothing: gluing the pieces back gives the input. */
  lemma {:induction false} SplitJoinRoundTrip(s: string, sep: char)
    ensures JoinWith(Split(s, sep), sep) == s
    decreases |s|
  {
    var i := IndexOfAny(s, {sep});
    if i < |s| {
      SplitJoinRoundTrip(s[i + 1..], sep);
      assert Split(s, sep)[1..] == Split(s[i + 1..], sep);
      assert s == s[..i] + [sep] + s[i + 1..];
    }
  }

  /** ASCII case folding, the part of `char::to_lowercase` the model covers. */
  function LowerChar(c: char): char {
    if 'A' <= c <= 'Z' then (c as int + 32) as char else c
  }

  /** `s.to_lowercase()` on ASCII letters. */
  function ToLower(s: string): (r: string)
    ensures |r| == |s|
    ensures forall i :: 0 <= i < |s| ==> r[i] == LowerChar(s[i])
  {
    seq(|s|, i requires 0 <= i < |s| => LowerChar(s[i]))
  }

  /** Lowercasing commutes with slicing. */
  lemma SliceToLower(s: string, i: int, j: int)
    requires 0 <= i <= j <= |s|
    ensures ToLower(s)[i..j] == ToLower(s[i..j])
  {
    var l, r := ToLower(s)[i..j], ToLower(s[i..j]);
    assert |l| == j - i == |r|;
    forall k | 0 <= k < j - i ensures l[k] == r[k] {
      assert l[k] == LowerChar(s[i + k]);
      assert r[k] == LowerChar(s[i..j][k]);
    }
  }

  /** A case-sensitive match is also a case-insensitive one. */
  lemma {:induction false} ContainsToLower(s: string, t: string)
    requires Contains(s, t)
    ensures Contains(ToLower(s), ToLower(t))
  {
    var i :| 0 <= i <= |s| - |t| && OccursAt(s, t, i);
    SliceToLower(s, i, i + |t|);
    assert OccursAt(ToLower(s), ToLower(t), i);
  }

  /** Lowercasing twice is lowercasing once. */
  lemma ToLowerIdempotent(s: string)
    ensures ToLower(ToLower(s)) == ToLower(s)
  {
  }
}
