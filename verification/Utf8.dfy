/** UTF-8 as section 4 of RFC 3629 defines it, and cutting a text without splitting a character. */
module Utf8 {
  type Byte = x: int | 0 <= x < 0x100

  type Bytes = seq<Byte>

  /** A byte of the form 10xxxxxx, which continues a character. */
  predicate Continues(b: Byte) {
    b / 0x40 == 2
  }

  predicate Within(b: Byte, low: int, high: int) {
    low <= b <= high
  }

  /** The number of bytes of the first character; zero when the text does not start with a valid one. */
  function CharLength(s: Bytes): (n: nat)
    ensures n <= |s|
    ensures n > 0 ==> !Continues(s[0])
    ensures forall k :: 0 < k < n ==> Continues(s[k])
  {
    if s == [] then 0
    else if s[0] <= 0x7F then 1
    else if |s| >= 2 && Within(s[0], 0xC2, 0xDF) && Within(s[1], 0x80, 0xBF) then 2
    else if |s| >= 3 && ThreeBytes(s[0], s[1]) && Within(s[2], 0x80, 0xBF) then 3
    else if |s| >= 4 && FourBytes(s[0], s[1]) && Within(s[2], 0x80, 0xBF) && Within(s[3], 0x80, 0xBF) then 4
    else 0
  }

  predicate ThreeBytes(a: Byte, b: Byte) {
    || (a == 0xE0 && Within(b, 0xA0, 0xBF))
    || (Within(a, 0xE1, 0xEC) && Within(b, 0x80, 0xBF))
    || (a == 0xED && Within(b, 0x80, 0x9F))
    || (Within(a, 0xEE, 0xEF) && Within(b, 0x80, 0xBF))
  }

  predicate FourBytes(a: Byte, b: Byte) {
    || (a == 0xF0 && Within(b, 0x90, 0xBF))
    || (Within(a, 0xF1, 0xF3) && Within(b, 0x80, 0xBF))
    || (a == 0xF4 && Within(b, 0x80, 0x8F))
  }

  predicate Valid(s: Bytes) {
    s == [] || (var n := CharLength(s); n > 0 && Valid(s[n..]))
  }

  /** The last place up to `end` that does not lie inside a character. */
  function Boundary(text: Bytes, end: nat): (n: nat)
    requires end < |text|
    ensures n <= end && forall k :: n < k <= end ==> Continues(text[k])
    ensures n > 0 ==> !Continues(text[n])
  {
    if end > 0 && Continues(text[end]) then Boundary(text, end - 1) else end
  }

  /** The text cut to a byte budget. */
  function Fit(text: Bytes, most: nat): (r: Bytes)
    ensures r <= text && |r| <= most
  {
    if |text| <= most then text else text[..Boundary(text, most)]
  }

  method FitUtf8(text: Bytes, maxBytes: nat) returns (r: Bytes)
    ensures r == Fit(text, maxBytes)
  {
    if |text| <= maxBytes {
      return text;
    }
    var end: nat := maxBytes;
    while end > 0 && Continues(text[end])
      invariant 0 <= end <= maxBytes
      invariant Boundary(text, end) == Boundary(text, maxBytes)
    {
      end := end - 1;
    }
    r := text[..end];
  }

  /** A valid text can be cut exactly where no character goes on. */
  lemma {:induction false} ValidPrefix(s: Bytes, p: nat)
    requires Valid(s) && p <= |s|
    ensures Valid(s[..p]) <==> p == |s| || !Continues(s[p])
    decreases |s|
  {
    if p == 0 {
      assert s != [] ==> CharLength(s) > 0;
    } else {
      var n := CharLength(s);
      if p < n {
        assert CharLength(s[..p]) == 0;
      } else {
        assert CharLength(s[..p]) == n;
        assert s[..p][n..] == s[n..][..p - n];
        ValidPrefix(s[n..], p - n);
      }
    }
  }

  /** Cutting a valid text leaves its longest valid prefix within the budget. */
  lemma FitIsLongest(text: Bytes, most: nat)
    requires Valid(text)
    ensures Valid(Fit(text, most))
    ensures forall p :: 0 <= p <= |text| && p <= most && Valid(text[..p]) ==> p <= |Fit(text, most)|
  {
    if |text| > most {
      var n := Boundary(text, most);
      ValidPrefix(text, n);
      ValidPrefix(text, 0);
      forall p | 0 <= p <= |text| && p <= most && Valid(text[..p])
        ensures p <= n
      {
        ValidPrefix(text, p);
      }
    }
  }
}
