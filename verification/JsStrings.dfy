/** The String.prototype methods that more than one component uses. */
module JsStrings {
  predicate StartsWith(s: string, w: string) {
    |w| <= |s| && s[..|w|] == w
  }

  predicate EndsWith(s: string, w: string) {
    |w| <= |s| && s[|s| - |w|..] == w
  }

  /** The characters String.prototype.trim removes. */
  predicate IsSpace(c: char) {
    || c in {'\t', '\n', '\U{000B}', '\U{000C}', '\r', ' ', '\U{00A0}', '\U{1680}', '\U{2028}', '\U{2029}',
             '\U{202F}', '\U{205F}', '\U{3000}', '\U{FEFF}'}
    || '\U{2000}' <= c <= '\U{200A}'
  }

  function TrimStart(s: string): string {
    if s != "" && IsSpace(s[0]) then TrimStart(s[1..]) else s
  }

  function TrimEnd(s: string): string {
    if s != "" && IsSpace(s[|s| - 1]) then TrimEnd(s[..|s| - 1]) else s
  }

  function Trim(s: string): string {
    TrimEnd(TrimStart(s))
  }

  /** Trimming takes a contiguous piece that neither starts nor ends with white space. */
  lemma TrimIsPiece(s: string) returns (a: nat, b: nat)
    ensures a <= b <= |s| && Trim(s) == s[a..b]
    ensures a < b ==> !IsSpace(s[a]) && !IsSpace(s[b - 1])
    ensures forall k :: 0 <= k < |s| && !(a <= k < b) ==> IsSpace(s[k])
  {
    a := TrimStartIsPiece(s);
    var c := TrimEndIsPiece(s[a..]);
    b := a + c;
    assert s[a..][..c] == s[a..b];
    assert a < b ==> s[a..][c - 1] == s[b - 1] && s[a..][0] == s[a];
    assert forall k :: b <= k < |s| ==> s[a..][k - a] == s[k];
  }

  lemma {:induction false} TrimStartIsPiece(s: string) returns (a: nat)
    ensures a <= |s| && TrimStart(s) == s[a..] && (a < |s| ==> !IsSpace(s[a]))
    ensures forall k :: 0 <= k < a ==> IsSpace(s[k])
    decreases |s|
  {
    if s != "" && IsSpace(s[0]) {
      var k := TrimStartIsPiece(s[1..]);
      a := k + 1;
      assert s[1..][k..] == s[a..];
    } else {
      a := 0;
    }
  }

  lemma {:induction false} TrimEndIsPiece(s: string) returns (b: nat)
    ensures b <= |s| && TrimEnd(s) == s[..b] && (b > 0 ==> !IsSpace(s[b - 1]))
    ensures forall k :: b <= k < |s| ==> IsSpace(s[k])
    decreases |s|
  {
    if s != "" && IsSpace(s[|s| - 1]) {
      b := TrimEndIsPiece(s[..|s| - 1]);
      assert s[..|s| - 1][..b] == s[..b];
    } else {
      b := |s|;
    }
  }
}
