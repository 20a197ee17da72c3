/** Text helpers of the ledger: character buffers, case folding, pipe replacement, truncation, substring search. */
module Text {

  /** `tolower` in the C locale: only the ASCII capitals change. */
  function Lower(c: char): (r: char)
    ensures !('A' <= r <= 'Z')
    ensures 'A' <= c <= 'Z' ==> r as int == c as int + 32
    ensures !('A' <= c <= 'Z') ==> r == c
  {
    if 'A' <= c <= 'Z' then (c as int + 32) as char else c
  }

  /** The string with every character passed through Lower. */
  function LowerStr(s: string): (r: string)
    ensures |r| == |s|
    ensures forall i :: 0 <= i < |s| ==> r[i] == Lower(s[i])
  {
    seq(|s|, i requires 0 <= i < |s| => Lower(s[i]))
  }

  /** Folding the case twice is the same as folding it once. */
  lemma LowerStrIdempotent(s: string)
    ensures LowerStr(LowerStr(s)) == LowerStr(s)
  {
  }

  /** One character of a stored text as written to the file: a `|` becomes `/`. */
  function Unpiped(c: char): (r: char)
    ensures r != '|'
    ensures c != '|' ==> r == c
  {
    if c == '|' then '/' else c
  }

  /** The text with every `|` replaced by `/`, everything else kept in place. */
  function Sanitize(s: string): (r: string)
    ensures |r| == |s|
    ensures '|' !in r
    ensures forall i :: 0 <= i < |s| ==> r[i] == Unpiped(s[i])
  {
    seq(|s|, i requires 0 <= i < |s| => Unpiped(s[i]))
  }

  /** Sanitising adds no byte that was not already there, except `/`. */
  lemma SanitizeKeepsOthers(s: string, c: char)
    requires c != '/'
    ensures c in Sanitize(s) ==> c in s
  {
  }

  /** The first n characters of s, or all of s: what `strncpy` into a buffer of n+1 bytes keeps. */
  function Truncate(s: string, n: nat): (r: string)
    ensures |r| <= n && r <= s
    ensures |s| <= n ==> r == s
    ensures |s| > n ==> |r| == n
  {
    if |s| <= n then s else s[..n]
  }

  /** A fresh character buffer holding s. */
  method BufferOf(s: string) returns (buf: array<char>)
    ensures fresh(buf) && buf[..] == s
  {
    buf := new char[|s|](i requires 0 <= i < |s| => s[i]);
  }

  /** The in-place loop of `to_lower_str`. */
  method ToLowerInPlace(buf: array<char>)
    modifies buf
    ensures buf[..] == LowerStr(old(buf[..]))
  {
    for i := 0 to buf.Length
      invariant forall k :: 0 <= k < i ==> buf[k] == Lower(old(buf[k]))
      invariant forall k :: i <= k < buf.Length ==> buf[k] == old(buf[k])
    {
      buf[i] := Lower(buf[i]);
    }
  }

  /** The in-place loop that replaces `|` by `/` in an entered category or note. */
  method ReplacePipesInPlace(buf: array<char>)
    modifies buf
    ensures buf[..] == Sanitize(old(buf[..]))
  {
    for i := 0 to buf.Length
      invariant forall k :: 0 <= k < i ==> buf[k] == Unpiped(old(buf[k]))
      invariant forall k :: i <= k < buf.Length ==> buf[k] == old(buf[k])
    {
      if buf[i] == '|' {
        buf[i] := '/';
      }
    }
  }

  /** A lower-cased copy of s, computed in a buffer as the source does. */
  method LoweredCopy(s: string) returns (r: string)
    ensures r == LowerStr(s)
  {
    var buf := BufferOf(s);
    ToLowerInPlace(buf);
    r := buf[..];
  }

  /** The needle occurs in the haystack at position k. */
  predicate OccursAt(needle: string, hay: string, k: nat) {
    k + |needle| <= |hay| && hay[k..k + |needle|] == needle
  }

  /** The needle occurs somewhere in the haystack. */
  ghost predicate Occurs(needle: string, hay: string) {
    exists k: nat :: OccursAt(needle, hay, k)
  }

  /** `strstr(hay, needle) != NULL`: tries every start position from the left. */
  function Contains(hay: string, needle: string): bool
    decreases |hay|
  {
    if |needle| > |hay| then false
    else if hay[..|needle|] == needle then true
    else Contains(hay[1..], needle)
  }

  /** The search finds the needle exactly when it occurs at some position of the haystack. */
  lemma {:induction false} ContainsMeaning(hay: string, needle: string)
    ensures Contains(hay, needle) <==> Occurs(needle, hay)
    decreases |hay|
  {
    if |needle| > |hay| {
      assert forall k: nat :: !OccursAt(needle, hay, k);
    } else if hay[..|needle|] == needle {
      assert OccursAt(needle, hay, 0);
    } else {
      ContainsMeaning(hay[1..], needle);
      if Contains(hay[1..], needle) {
        var k: nat :| OccursAt(needle, hay[1..], k);
        assert hay[1..][k..k + |needle|] == hay[k + 1..k + 1 + |needle|];
        assert OccursAt(needle, hay, k + 1);
      }
      if Occurs(needle, hay) {
        var k: nat :| OccursAt(needle, hay, k);
        assert k != 0;
        assert hay[1..][k - 1..k - 1 + |needle|] == hay[k..k + |needle|];
        assert OccursAt(needle, hay[1..], k - 1);
      }
    }
  }

  /** The empty needle is found in every haystack, as with `strstr`. */
  lemma EmptyNeedle(hay: string)
    ensures Contains(hay, "")
  {
    assert hay[..0] == "";
  }
}
