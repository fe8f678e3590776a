/**
  The string step of `urlBase64ToUint8Array`, which turns the server's
  VAPID public key from the URL-safe alphabet of section 5 of RFC 4648
  (unpadded) into the padded standard alphabet of section 4 of RFC 4648,
  hands it to the browser's `atob`, and copies the decoded characters into
  a `Uint8Array`.
 */
module KeyDecoding {
  import opened Js

  /** An element of a `Uint8Array`. */
  type Byte = x: int | 0 <= x < 256

  /** The key the client subscribes with. */
  const VapidPublicKey := "BEA_enwGTHQ6Oe4Wo777yTxJaRwY1z6iYeGDvbJTGxDWwVQ5umwaj7N2nhx23FIUIPI7Di_yzu0tW3wwv9TEtns"

  predicate IsAlphaNumeric(c: char) {
    ('A' <= c <= 'Z') || ('a' <= c <= 'z') || ('0' <= c <= '9')
  }

  /** The alphabet of section 5 of RFC 4648 ("base64url"). */
  predicate IsUrlAlphabet(c: char) {
    IsAlphaNumeric(c) || c == '-' || c == '_'
  }

  /** The alphabet of section 4 of RFC 4648. */
  predicate IsStandardAlphabet(c: char) {
    IsAlphaNumeric(c) || c == '+' || c == '/'
  }

  /** The number of `=` characters appended, `(4 - length % 4) % 4`. */
  function PaddingLength(length: nat): (r: nat)
    ensures r <= 3
    ensures (length + r) % 4 == 0
  {
    (4 - length % 4) % 4
  }

  /** `s` followed by its padding. */
  function Pad(s: string): (r: string)
    ensures |r| % 4 == 0 && |s| <= |r| <= |s| + 3
    ensures r[..|s|] == s
    ensures forall k :: |s| <= k < |r| ==> r[k] == '='
  {
    s + seq(PaddingLength(|s|), _ => '=')
  }

  /** `s.replace(/x/g, y)` for a single character `x`: every occurrence of `x` becomes `y`. */
  function ReplaceAll(s: string, x: char, y: char): (r: string)
    ensures |r| == |s|
    ensures forall i :: 0 <= i < |s| ==> r[i] == if s[i] == x then y else s[i]
  {
    if |s| == 0 then []
    else [if s[0] == x then y else s[0]] + ReplaceAll(s[1..], x, y)
  }

  /** The character map of the two `replace` calls together: `-` becomes `+` and `_` becomes `/`. */
  function ToStandardChar(c: char): char {
    if c == '-' then '+' else if c == '_' then '/' else c
  }

  /** The reverse map, from the standard alphabet back to the URL-safe one. */
  function ToUrlChar(c: char): char {
    if c == '+' then '-' else if c == '/' then '_' else c
  }

  /**
    `.replace(/\-/g, '+').replace(/_/g, '/')`. The two replacements in
    sequence act character by character as `ToStandardChar`; the second
    cannot undo the first, since `+` is not `_`.
   */
  function ToStandardAlphabet(s: string): (r: string)
    ensures |r| == |s|
    ensures forall i :: 0 <= i < |s| ==> r[i] == ToStandardChar(s[i])
  {
    ReplaceAll(ReplaceAll(s, '-', '+'), '_', '/')
  }

  function ToUrlAlphabet(s: string): (r: string)
    ensures |r| == |s|
    ensures forall i :: 0 <= i < |s| ==> r[i] == ToUrlChar(s[i])
  {
    seq(|s|, i requires 0 <= i < |s| => ToUrlChar(s[i]))
  }

  /** The string handed to `atob`: the translated input followed by its padding. */
  function StandardBase64(s: string): (r: string)
    ensures |r| == |s| + PaddingLength(|s|)
    ensures forall i :: 0 <= i < |s| ==> r[i] == ToStandardChar(s[i])
    ensures forall i :: |s| <= i < |r| ==> r[i] == '='
  {
    ToStandardAlphabet(Pad(s))
  }

  /**
    The translation touches only `-` and `_`: every other character,
    the padding included, keeps its place, and the length is unchanged.
   */
  lemma TranslationChangesOnlyUrlCharacters(s: string)
    ensures var b := StandardBase64(s);
      && |b| == |Pad(s)|
      && (forall i :: 0 <= i < |s| && s[i] == '-' ==> b[i] == '+')
      && (forall i :: 0 <= i < |s| && s[i] == '_' ==> b[i] == '/')
      && (forall i :: 0 <= i < |s| && s[i] != '-' && s[i] != '_' ==> b[i] == s[i])
      && (forall i :: |s| <= i < |b| ==> b[i] == '=')
  {
  }

  /**
    The shape of the string handed to `atob`: standard-alphabet
    characters, then at most three `=`, in a length that is a multiple of
    four. Only an input whose length leaves remainder 1 modulo 4 gets
    three `=`; base64 padding never has three, and `atob` rejects that
    string.
   */
  lemma StandardBase64Shape(s: string)
    requires forall i :: 0 <= i < |s| ==> IsUrlAlphabet(s[i])
    ensures var b := StandardBase64(s);
      && |b| % 4 == 0 && |b| - |s| <= 3
      && (|b| - |s| == 3 <==> |s| % 4 == 1)
      && (forall i :: 0 <= i < |s| ==> IsStandardAlphabet(b[i]))
      && (forall i :: |s| <= i < |b| ==> b[i] == '=')
  {
  }

  /** Dropping the padding and translating back recovers a base64url string. */
  lemma StandardBase64RoundTrip(s: string)
    requires forall i :: 0 <= i < |s| ==> IsUrlAlphabet(s[i])
    ensures ToUrlAlphabet(StandardBase64(s)[..|s|]) == s
  {
    var b := StandardBase64(s);
    assert forall i :: 0 <= i < |s| ==> b[..|s|][i] == ToStandardChar(s[i]);
  }

  /** The key this client uses has 87 characters and is padded with one `=`. */
  lemma VapidKeyPadding()
    ensures |VapidPublicKey| == 87 && PaddingLength(|VapidPublicKey|) == 1
  {
  }

  /** The element `Uint8Array` stores for a character code: the code modulo 256. */
  function ToUint8(c: char): (b: Byte)
    ensures (c as int) < 256 ==> b == c as int
    ensures (c as int - b) % 256 == 0
  {
    (c as int) % 256
  }

  /** Copying the decoded characters into a `Uint8Array` of the same length. */
  function ToBytes(raw: string): (r: seq<Byte>)
    ensures |r| == |raw|
    ensures forall i :: 0 <= i < |raw| && (raw[i] as int) < 256 ==> r[i] == raw[i] as int
  {
    seq(|raw|, i requires 0 <= i < |raw| => ToUint8(raw[i]))
  }

  /**
    `urlBase64ToUint8Array`: `atob` is the browser's decoder, returning
    the binary string or `None` when it throws.
   */
  function UrlBase64ToUint8Array(s: string, atob: string -> Option<string>): (r: Option<seq<Byte>>)
    ensures atob(StandardBase64(s)).None? <==> r.None?
    ensures r.Some? ==> |r.value| == |atob(StandardBase64(s)).value|
    ensures r.Some? ==> forall i :: 0 <= i < |r.value| ==> r.value[i] == atob(StandardBase64(s)).value[i] as int % 256
  {
    match atob(StandardBase64(s))
    case None => None
    case Some(raw) => Some(ToBytes(raw))
  }
}
