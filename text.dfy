/**
  The two string helpers of Go's `strings` package that the health check uses:
  `strings.Contains` and `strings.Join`.
 */
module Text {

  /** `sub` occurs in `s` starting at index `k`. */
  ghost predicate OccursAt(s: string, sub: string, k: int)
  {
    0 <= k && k + |sub| <= |s| && s[k..k + |sub|] == sub
  }

  /** `strings.Contains(s, sub)`: whether `sub` is a substring of `s`; the empty string is in every string. */
  function Contains(s: string, sub: string): (b: bool)
    ensures b ==> |sub| <= |s|
    decreases |s|
  {
    if sub <= s then true
    else if |s| == 0 then false
    else Contains(s[1..], sub)
  }

  /** `strings.Join(parts, sep)`: the parts in order, with `sep` between neighbours. */
  function Join(parts: seq<string>, sep: string): string
    decreases |parts|
  {
    if |parts| == 0 then ""
    else if |parts| == 1 then parts[0]
    else parts[0] + sep + Join(parts[1..], sep)
  }

  /** Contains agrees with the plain definition of a substring, in both directions. */
  lemma {:induction false} ContainsIsOccurrence(s: string, sub: string)
    ensures Contains(s, sub) <==> exists k :: OccursAt(s, sub, k)
    decreases |s|
  {
    if sub <= s {
      assert OccursAt(s, sub, 0);
    } else if |s| == 0 {
      assert forall k :: !OccursAt(s, sub, k);
    } else {
      ContainsIsOccurrence(s[1..], sub);
      if k :| OccursAt(s, sub, k) {
        assert k != 0;
        assert s[1..][k - 1..k - 1 + |sub|] == s[k..k + |sub|];
        assert OccursAt(s[1..], sub, k - 1);
      }
      if k :| OccursAt(s[1..], sub, k) {
        assert s[k + 1..k + 1 + |sub|] == s[1..][k..k + |sub|];
        assert OccursAt(s, sub, k + 1);
      }
    }
  }

  /** Each part stands in the joined string at some offset. */
  lemma {:induction false} JoinOccurs(parts: seq<string>, sep: string, i: int) returns (k: int)
    requires 0 <= i < |parts|
    ensures OccursAt(Join(parts, sep), parts[i], k)
    decreases |parts|
  {
    if |parts| == 1 {
      k := 0;
    } else {
      var rest := Join(parts[1..], sep);
      var head := parts[0] + sep;
      assert Join(parts, sep) == head + rest;
      if i == 0 {
        k := 0;
        assert (head + rest)[..|parts[0]|] == parts[0];
      } else {
        var k' := JoinOccurs(parts[1..], sep, i - 1);
        k := |head| + k';
        assert (head + rest)[k..k + |parts[i]|] == rest[k'..k' + |parts[i]|];
      }
    }
  }

  /** Every part can be found in the joined string. */
  lemma JoinContainsEach(parts: seq<string>, sep: string, i: int)
    requires 0 <= i < |parts|
    ensures Contains(Join(parts, sep), parts[i])
  {
    var k := JoinOccurs(parts, sep, i);
    ContainsIsOccurrence(Join(parts, sep), parts[i]);
  }
}
