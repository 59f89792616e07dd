/**
 UTF-8 as section 4 of RFC 3629 defines it, the two ways the program repairs an invalid string
 (strings.ToValidUTF8 and the JSON encoder), and the loop with which it cuts a string to a byte limit.
 */
module Utf8 {
  import opened Common

  predicate Tail(b: byte) { 0x80 <= b <= 0xBF }

  /** The second byte a three-byte character may have after its first byte. */
  predicate Second3(first: byte, second: byte) {
    || (first == 0xE0 && 0xA0 <= second <= 0xBF)
    || (0xE1 <= first <= 0xEC && Tail(second))
    || (first == 0xED && 0x80 <= second <= 0x9F)
    || (0xEE <= first <= 0xEF && Tail(second))
  }

  /** The second byte a four-byte character may have after its first byte. */
  predicate Second4(first: byte, second: byte) {
    || (first == 0xF0 && 0x90 <= second <= 0xBF)
    || (0xF1 <= first <= 0xF3 && Tail(second))
    || (first == 0xF4 && 0x80 <= second <= 0x8F)
  }

  /** The length of the well-formed character that s starts with; 0 when there is none. */
  function RuneLen(s: Bytes): (n: nat)
    ensures n <= 4 && n <= |s|
  {
    if |s| == 0 then 0
    else if s[0] < 0x80 then 1
    else if |s| >= 2 && 0xC2 <= s[0] <= 0xDF && Tail(s[1]) then 2
    else if |s| >= 3 && Second3(s[0], s[1]) && Tail(s[2]) then 3
    else if |s| >= 4 && Second4(s[0], s[1]) && Tail(s[2]) && Tail(s[3]) then 4
    else 0
  }

  predicate Valid(s: Bytes) {
    s == [] || (RuneLen(s) > 0 && Valid(s[RuneLen(s)..]))
  }

  /** Whether a character is well formed is decided by its own bytes, and none is a prefix of another. */
  lemma RuneLocal(s: Bytes, k: nat)
    requires k <= |s| && RuneLen(s) > 0
    ensures k >= RuneLen(s) ==> RuneLen(s[..k]) == RuneLen(s)
    ensures k < RuneLen(s) ==> RuneLen(s[..k]) == 0
  {
  }

  lemma {:induction false} ValidConcat(a: Bytes, b: Bytes)
    requires Valid(a)
    ensures Valid(a + b) <==> Valid(b)
    decreases |a|
  {
    if a == [] {
      assert a + b == b;
    } else {
      var n := RuneLen(a);
      RuneLocalExtend(a, b);
      assert (a + b)[n..] == a[n..] + b;
      ValidConcat(a[n..], b);
    }
  }

  lemma RuneLocalExtend(a: Bytes, b: Bytes)
    requires RuneLen(a) > 0
    ensures RuneLen(a + b) == RuneLen(a)
  {
  }

  /** The length the trimming loop ends at: the first valid prefix met going down from n. */
  function Cut(s: Bytes, n: nat): (k: nat)
    requires n <= |s|
    ensures k <= n && Valid(s[..k])
    ensures forall i :: k < i <= n ==> !Valid(s[..i])
  {
    if Valid(s[..n]) then n
    else
      assert s[..0] == [];
      Cut(s, n - 1)
  }

  /** At most three bytes go: a valid string has a character boundary among any four consecutive positions. */
  lemma {:induction false} CutDropsAtMostThree(s: Bytes, n: nat)
    requires Valid(s) && n <= |s|
    ensures n - Cut(s, n) <= 3
    decreases |s|
  {
    var k := BoundaryNear(s, n);
  }

  lemma {:induction false} BoundaryNear(s: Bytes, n: nat) returns (k: nat)
    requires Valid(s) && n <= |s|
    ensures k <= n <= k + 3 && Valid(s[..k])
    decreases |s|
  {
    var r := RuneLen(s);
    if n < r || s == [] {
      k := 0;
    } else {
      var j := BoundaryNear(s[r..], n - r);
      k := r + j;
      assert s[..k] == s[..r] + s[r..][..j];
      RuneLocal(s, r);
      assert s[..r][r..] == [];
      ValidConcat(s[..r], s[r..][..j]);
    }
  }

  lemma TailsFollow(s: Bytes, i: nat)
    requires 0 < i < RuneLen(s)
    ensures Tail(s[i])
  {
  }

  /** UTF-8 synchronises itself: in a valid string a byte that is no tail byte starts a character. */
  lemma {:induction false} BoundaryAt(s: Bytes, i: nat)
    requires Valid(s) && i < |s| && !Tail(s[i])
    ensures Valid(s[..i])
    decreases |s|
  {
    hide RuneLen, Tail;
    var r := RuneLen(s);
    if i == 0 {
      assert s[..0] == [];
    } else if i < r {
      TailsFollow(s, i);
    } else {
      BoundaryAt(s[r..], i - r);
      RuneThenValid(s, s[r..][..i - r]);
      assert s[..i] == s[..r] + s[r..][..i - r];
    }
  }

  /** The loop that drops last bytes until the prefix is valid UTF-8. */
  method TrimToValid(s: Bytes, limit: nat) returns (t: Bytes)
    requires limit <= |s|
    ensures t == s[..Cut(s, limit)]
    ensures Valid(t) && t <= s && |t| <= limit
    ensures forall u :: u <= s && |t| < |u| <= limit ==> !Valid(u)
    ensures Valid(s) ==> limit - |t| <= 3
  {
    t := s[..limit];
    while !Valid(t) && |t| > 0
      invariant |t| <= limit && t == s[..|t|]
      invariant Cut(s, |t|) == Cut(s, limit)
      decreases |t|
    {
      t := t[..|t| - 1];
    }
    forall u | u <= s && |t| < |u| <= limit
      ensures !Valid(u)
    {
      assert u == s[..|u|];
    }
    if Valid(s) {
      CutDropsAtMostThree(s, limit);
    }
  }

  /** The replacement character U+FFFD. */
  const REPLACEMENT: Bytes := [0xEF, 0xBF, 0xBD]

  /** strings.ToValidUTF8: each run of bytes that start no character becomes one replacement character. */
  function ToValid(s: Bytes, inRun: bool): (t: Bytes)
    ensures Valid(t)
    decreases |s|
  {
    if s == [] then []
    else
      var n := RuneLen(s);
      if n > 0 then
        RuneThenValid(s, ToValid(s[n..], false));
        s[..n] + ToValid(s[n..], false)
      else if inRun then ToValid(s[1..], true)
      else
        RuneThenValid(REPLACEMENT, ToValid(s[1..], true));
        REPLACEMENT + ToValid(s[1..], true)
  }

  /** encoding/json on the way out and back: each byte that starts no character becomes a replacement character. */
  function JsonCoerce(s: Bytes): (t: Bytes)
    ensures Valid(t)
    decreases |s|
  {
    if s == [] then []
    else
      var n := RuneLen(s);
      if n > 0 then
        RuneThenValid(s, JsonCoerce(s[n..]));
        s[..n] + JsonCoerce(s[n..])
      else
        RuneThenValid(REPLACEMENT, JsonCoerce(s[1..]));
        REPLACEMENT + JsonCoerce(s[1..])
  }

  lemma RuneThenValid(s: Bytes, rest: Bytes)
    requires RuneLen(s) > 0 && Valid(rest)
    ensures Valid(s[..RuneLen(s)] + rest)
  {
    var n := RuneLen(s);
    RuneLocal(s, n);
    assert s[..n][n..] == [];
    ValidConcat(s[..n], rest);
  }

  /** Both repairs leave a string alone exactly when it is valid. */
  lemma {:induction false} RepairIdentity(s: Bytes)
    ensures ToValid(s, false) == s <==> Valid(s)
    ensures JsonCoerce(s) == s <==> Valid(s)
    decreases |s|
  {
    if Valid(s) && s != [] {
      var n := RuneLen(s);
      RepairIdentity(s[n..]);
      assert s == s[..n] + s[n..];
    }
  }

  // ---- What the repairs do ----

  /** Bytes none of which starts a character, before the end or a character. */
  predicate Run(g: Bytes, b: Bytes) {
    g != [] && (forall k :: 0 <= k < |g| ==> RuneLen(g[k..] + b) == 0) && (b == [] || RuneLen(b) > 0)
  }

  /** Every invalid string has such a run after a valid part. */
  lemma {:induction false} Splits(s: Bytes) returns (a: Bytes, g: Bytes, b: Bytes)
    requires !Valid(s)
    ensures s == a + g + b && Valid(a) && Run(g, b)
    decreases |s|
  {
    hide RuneLen;
    var n := RuneLen(s);
    if n > 0 {
      var front;
      front, g, b := Splits(s[n..]);
      a := s[..n] + front;
      RuneThenValid(s, front);
    } else {
      a := [];
      g, b := RunFrom(s);
    }
  }

  lemma {:induction false} RunFrom(s: Bytes) returns (g: Bytes, b: Bytes)
    requires s != [] && RuneLen(s) == 0
    ensures s == g + b && Run(g, b)
    decreases |s|
  {
    hide RuneLen;
    var rest := s[1..];
    if rest == [] || RuneLen(rest) > 0 {
      g, b := s[..1], rest;
      assert g[0..] + b == s;
    } else {
      var more;
      more, b := RunFrom(rest);
      g := s[..1] + more;
      forall k | 0 <= k < |g| ensures RuneLen(g[k..] + b) == 0 {
        if k == 0 {
          assert g[0..] + b == s;
        } else {
          assert g[k..] == more[k - 1..];
        }
      }
    }
  }

  lemma RepairStep(s: Bytes)
    requires RuneLen(s) > 0
    ensures ToValid(s, false) == s[..RuneLen(s)] + ToValid(s[RuneLen(s)..], false)
    ensures JsonCoerce(s) == s[..RuneLen(s)] + JsonCoerce(s[RuneLen(s)..])
  {
    hide RuneLen;
  }

  lemma ValidStep(s: Bytes)
    requires Valid(s) && s != []
    ensures RuneLen(s) > 0 && Valid(s[RuneLen(s)..])
  {
    hide RuneLen;
  }

  /** Both repairs keep a valid part, and go on after it. */
  lemma {:induction false} RepairAfter(a: Bytes, rest: Bytes)
    requires Valid(a)
    ensures ToValid(a + rest, false) == a + ToValid(rest, false) && JsonCoerce(a + rest) == a + JsonCoerce(rest)
    decreases |a|
  {
    hide RuneLen, Valid, ToValid, JsonCoerce;
    if a == [] {
      assert a + rest == rest;
      assert a + ToValid(rest, false) == ToValid(rest, false) && a + JsonCoerce(rest) == JsonCoerce(rest);
    } else {
      ValidStep(a);
      var n := RuneLen(a);
      var front, back := a[..n], a[n..];
      RuneLocalExtend(a, rest);
      RepairStep(a + rest);
      assert (a + rest)[..n] == front && (a + rest)[n..] == back + rest && a == front + back;
      RepairAfter(back, rest);
      Associative(front, back, ToValid(rest, false));
      Associative(front, back, JsonCoerce(rest));
    }
  }

  function Replacements(n: nat): Bytes { if n == 0 then [] else [0xEF, 0xBF, 0xBD] + Replacements(n - 1) }

  lemma {:induction false} RunRepaired(g: Bytes, b: Bytes)
    requires Run(g, b)
    ensures ToValid(g + b, true) == ToValid(b, false) && ToValid(g + b, false) == [0xEF, 0xBF, 0xBD] + ToValid(b, false)
    ensures JsonCoerce(g + b) == Replacements(|g|) + JsonCoerce(b)
    decreases |g|
  {
    hide RuneLen;
    var s := g + b;
    assert g[0..] + b == s && s[1..] == g[1..] + b;
    if |g| == 1 {
      assert s[1..] == b;
      NoRun(b);
      assert Replacements(1) == [0xEF, 0xBF, 0xBD];
    } else {
      forall k | 0 <= k < |g| - 1 ensures RuneLen(g[1..][k..] + b) == 0 { assert g[1..][k..] == g[k + 1..]; }
      RunRepaired(g[1..], b);
    }
  }

  lemma NoRun(b: Bytes)
    requires b == [] || RuneLen(b) > 0
    ensures ToValid(b, true) == ToValid(b, false)
  {
  }

  /**
   What the two repairs make of an invalid string: strings.ToValidUTF8 puts one replacement character in the place of a
   whole run of bytes that start no character, the JSON encoder one in the place of each byte.
   */
  lemma RepairsRuns(a: Bytes, g: Bytes, b: Bytes)
    requires Valid(a) && Run(g, b)
    ensures ToValid(a + g + b, false) == a + [0xEF, 0xBF, 0xBD] + ToValid(b, false)
    ensures JsonCoerce(a + g + b) == a + Replacements(|g|) + JsonCoerce(b)
  {
    hide Run, ToValid, JsonCoerce, Valid, RuneLen, Replacements;
    RunRepaired(g, b);
    RepairAfter(a, g + b);
    Associative(a, g, b);
    Associative(a, [0xEF, 0xBF, 0xBD], ToValid(b, false));
    Associative(a, Replacements(|g|), JsonCoerce(b));
  }

  // ---- Characters ----

  /** The Unicode scalar values. */
  predicate Scalar(c: nat) { c < 0xD800 || 0xE000 <= c < 0x11_0000 }

  /** The bytes of a character, as the table in section 3 of RFC 3629 gives them. */
  function EncodeRune(c: nat): Bytes
    requires c < 0x11_0000
  {
    if c < 0x80 then [c]
    else if c < 0x800 then [0xC0 + c / 64, 0x80 + c % 64]
    else if c < 0x1_0000 then [0xE0 + c / 4096, 0x80 + c / 64 % 64, 0x80 + c % 64]
    else [0xF0 + c / 262144, 0x80 + c / 4096 % 64, 0x80 + c / 64 % 64, 0x80 + c % 64]
  }

  /** A string starts with a character of some length exactly if these bytes are the encoding of a scalar value. */
  lemma RuneIs(s: Bytes, n: nat)
    requires 0 < n
    ensures RuneLen(s) == n <==> n <= |s| && exists c :: Scalar(c) && s[..n] == EncodeRune(c)
  {
    if RuneLen(s) == n {
      var c := RuneOf(s);
    }
    if n <= |s| && exists c :: Scalar(c) && s[..n] == EncodeRune(c) {
      var c :| Scalar(c) && s[..n] == EncodeRune(c);
      EncodedRune(c, s[n..]);
      assert EncodeRune(c) + s[n..] == s;
    }
  }

  lemma EncodedRune(c: nat, rest: Bytes)
    requires Scalar(c)
    ensures RuneLen(EncodeRune(c) + rest) == |EncodeRune(c)|
  {
    var e := EncodeRune(c);
    assert forall i :: 0 <= i < |e| ==> (e + rest)[i] == e[i];
  }

  lemma RuneOf(s: Bytes) returns (c: nat)
    requires RuneLen(s) > 0
    ensures Scalar(c) && s[..RuneLen(s)] == EncodeRune(c)
  {
    hide EncodeRune;
    var n := RuneLen(s);
    if n == 1 {
      c := s[0];
      OneByte(s[0]);
    } else if n == 2 {
      c := TwoBytes(s[0], s[1]);
    } else if n == 3 {
      c := ThreeBytes(s[0], s[1], s[2]);
    } else {
      c := FourBytes(s[0], s[1], s[2], s[3]);
    }
  }

  lemma OneByte(x: byte)
    requires x < 0x80
    ensures EncodeRune(x) == [x]
  {
  }

  lemma TwoBytes(x: byte, y: byte) returns (c: nat)
    requires 0xC2 <= x <= 0xDF && Tail(y)
    ensures Scalar(c) && EncodeRune(c) == [x, y]
  {
    var (a: int, b: int) := (x - 0xC0, y - 0x80);
    c := 64 * a + b;
    assert c / 64 == a && c % 64 == b;
  }

  lemma ThreeBytes(x: byte, y: byte, z: byte) returns (c: nat)
    requires Second3(x, y) && Tail(z)
    ensures Scalar(c) && EncodeRune(c) == [x, y, z]
  {
    var (a: int, b: int, d: int) := (x - 0xE0, y - 0x80, z - 0x80);
    var e := 64 * a + b;
    c := 64 * e + d;
    assert c / 64 == e && c % 64 == d && e / 64 == a && e % 64 == b;
    assert c / 4096 == a;
  }

  lemma FourBytes(x: byte, y: byte, z: byte, w: byte) returns (c: nat)
    requires Second4(x, y) && Tail(z) && Tail(w)
    ensures Scalar(c) && EncodeRune(c) == [x, y, z, w]
  {
    var (a: int, b: int, d: int, e: int) := (x - 0xF0, y - 0x80, z - 0x80, w - 0x80);
    var f := 64 * a + b;
    var g := 64 * f + d;
    c := 64 * g + e;
    assert c / 64 == g && c % 64 == e && g / 64 == f && g % 64 == d && f / 64 == a && f % 64 == b;
    assert c / 4096 == f && c / 262144 == a;
  }

  // ---- Decoding as the WHATWG Encoding Standard does ----

  /** How many bytes are decoded together: a character, or else the longest part that could have become one. */
  function Width(s: Bytes): (n: nat)
    requires s != []
    ensures 1 <= n <= |s|
  {
    if RuneLen(s) > 0 then RuneLen(s)
    else if |s| >= 2 && Second3(s[0], s[1]) then 2
    else if |s| >= 2 && Second4(s[0], s[1]) then (if |s| >= 3 && Tail(s[2]) then 3 else 2)
    else 1
  }

  /** What these bytes are decoded to. */
  function First(s: Bytes): Bytes
    requires s != []
  {
    if RuneLen(s) > 0 then s[..RuneLen(s)] else REPLACEMENT
  }

  lemma FirstThenValid(s: Bytes, rest: Bytes)
    requires s != [] && Valid(rest)
    ensures Valid(First(s) + rest)
  {
    if RuneLen(s) > 0 {
      RuneThenValid(s, rest);
    } else {
      RuneThenValid(REPLACEMENT, rest);
    }
  }

  /** The UTF-8 decoder: each maximal part of a character becomes one replacement character. */
  function Decode(s: Bytes): (t: Bytes)
    ensures Valid(t)
    decreases |s|
  {
    if s == [] then []
    else
      FirstThenValid(s, Decode(s[Width(s)..]));
      First(s) + Decode(s[Width(s)..])
  }

  /** Decoding leaves a string alone exactly when it is valid. */
  lemma {:induction false} DecodeIdentity(s: Bytes)
    ensures Decode(s) == s <==> Valid(s)
    decreases |s|
  {
    if Valid(s) && s != [] {
      DecodeIdentity(s[RuneLen(s)..]);
      assert s == s[..RuneLen(s)] + s[RuneLen(s)..];
    }
  }

  /** An ASCII byte completes no character, so what comes before it is decoded as if nothing followed. */
  lemma BeforeAscii(a: Bytes, x: byte, b: Bytes)
    requires a != [] && x < 0x80
    ensures Width(a + [x] + b) == Width(a) && First(a + [x] + b) == First(a)
  {
    var s := a + [x] + b;
    assert s[|a|] == x && forall i :: 0 <= i < |a| ==> s[i] == a[i];
    assert RuneLen(s) == RuneLen(a);
    assert s[..RuneLen(a)] == a[..RuneLen(a)];
  }

  lemma DecodeStep(s: Bytes)
    requires s != []
    ensures Decode(s) == First(s) + Decode(s[Width(s)..])
    ensures Decode(s) != [] && (s[0] < 0x80 || Decode(s)[0] < 0x80 ==> Decode(s)[0] == s[0])
    ensures s[0] < 0x80 ==> Width(s) == 1 && First(s) == [s[0]]
  {
  }

  /** Decoding goes on separately before and after an ASCII byte. */
  lemma {:induction false} DecodeAscii(a: Bytes, x: byte, b: Bytes)
    requires x < 0x80
    ensures Decode(a + [x] + b) == Decode(a) + [x] + Decode(b)
    decreases |a|
  {
    hide Decode, First, Width, Valid;
    var s := a + [x] + b;
    DecodeStep(s);
    if a == [] {
      assert s[0] == x && s[1..] == b && [] + [x] == [x];
      DecodeNothing();
    } else {
      var n := Width(a);
      BeforeAscii(a, x, b);
      assert s[n..] == a[n..] + [x] + b;
      DecodeAscii(a[n..], x, b);
      DecodeStep(a);
      assert First(a) + (Decode(a[n..]) + [x] + Decode(b)) == First(a) + Decode(a[n..]) + [x] + Decode(b);
    }
  }

  lemma DecodeNothing()
    ensures Decode([]) == []
  {
  }

  /** No ASCII byte comes up in decoding that was not there. */
  lemma {:induction false} DecodeWithout(s: Bytes, x: byte)
    requires x < 0x80 && x !in s
    ensures x !in Decode(s)
    decreases |s|
  {
    if s != [] {
      DecodeWithout(s[Width(s)..], x);
    }
  }

  /** What is no valid string shows a replacement character. */
  lemma {:induction false} InvalidShows(s: Bytes)
    requires !Valid(s)
    ensures 0xEF in Decode(s)
    decreases |s|
  {
    if RuneLen(s) > 0 {
      InvalidShows(s[RuneLen(s)..]);
    } else {
      assert Decode(s)[0] == 0xEF;
    }
  }
}
