/** Shortening of descriptions for list views: `s.length > n ? s.slice(0, n) + "..." : s`. */
module Descriptions {

  const Ellipsis: string := "..."

  function Min(a: int, b: int): int { if a <= b then a else b }

  /** The description as shown with at most `limit` characters of the original.
      A longer text keeps its first `limit` characters and gains the ellipsis. */
  function Truncate(s: string, limit: nat): (shown: string)
    ensures |s| <= limit ==> shown == s
    ensures |s| > limit ==> |shown| == limit + |Ellipsis| && shown[limit..] == Ellipsis
    ensures |shown| <= limit + |Ellipsis|
    ensures shown[..Min(|s|, limit)] == s[..Min(|s|, limit)]
  {
    if |s| > limit then s[..limit] + Ellipsis else s
  }

  /** Shortening leaves a text as it is exactly when it is short enough, or when it is
      `limit + 3` characters long and already ends with the ellipsis. */
  lemma TruncateUnchangedIff(s: string, limit: nat)
    ensures Truncate(s, limit) == s <==>
      |s| <= limit || (|s| == limit + |Ellipsis| && s[limit..] == Ellipsis)
  {
    if |s| == limit + |Ellipsis| && s[limit..] == Ellipsis {
      assert s == s[..limit] + s[limit..];
    }
  }

  /** The "shortened" text is longer than the original exactly when the original exceeds
      the limit by one or two characters. */
  lemma TruncateLengthensIff(s: string, limit: nat)
    ensures |Truncate(s, limit)| > |s| <==> limit < |s| < limit + |Ellipsis|
  {
  }

  /** Shortening an already shortened text changes nothing. */
  lemma TruncateIdempotent(s: string, limit: nat)
    ensures Truncate(Truncate(s, limit), limit) == Truncate(s, limit)
  {
    TruncateUnchangedIff(Truncate(s, limit), limit);
  }
}
