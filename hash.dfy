/**
 * The URL hash of Mozilla Places as re-implemented in utils/hash.py: a 32-bit
 * golden-ratio fold with a 5-bit rotation.  `hash_url` packs the low 16 bits of
 * the hash of the scheme (the text before the first ':') into bits 32-47 and
 * the 32-bit hash of the whole string into bits 0-31.
 *
 * The 32-bit state is a `bv32`, so the `& 0xFFFFFFFF` masks inside the fold
 * are the wrap-around of `bv32` arithmetic.  The packed value is a Python
 * integer, so it is an `int` here; on the non-negative integers it works on,
 * the source's `x & 0xFFFF`, `x << 32` and `x & 0xFFFFFFFFFFFFFFFF` are
 * `x % 2^16`, `x * 2^32` and `x % 2^64`.  SQLite stores the value as an
 * INTEGER; the decimal `str()` that `hash_function` returns is compared with
 * INTEGER columns and so is modelled as the integer itself.
 */
module UrlHash {
  import opened Results

  const GOLDEN_RATIO: bv32 := 0x9E37_79B9

  /** `rotate_left`, applied (as in the source) to values below 2^32. */
  function RotateLeft(v: bv32): (r: bv32)
    ensures r == v.RotateLeft(5)
  {
    (v << 5) | (v >> 27)
  }

  /**
   * `ord(c)` as a 32-bit value (a code point is below 2^21).  ASCII characters
   * take a 7-bit conversion, which is the same value (see `OrdIsCodePoint`) and
   * much cheaper for the verifier to evaluate on concrete text.
   */
  function Ord(c: char): bv32
  {
    if c as int < 128 then ((c as int) as bv7) as bv32 else c as bv32
  }

  lemma OrdIsCodePoint(c: char)
    ensures Ord(c) == c as bv32
  {
  }

  /** The arithmetic of `add_to_hash` on a character code.  Multiplication wraps at 2^32. */
  function Mix(h: bv32, x: bv32): bv32
  {
    GOLDEN_RATIO * (RotateLeft(h) ^ x)
  }

  /** `add_to_hash`: one step of the fold, for one character. */
  function AddToHash(h: bv32, c: char): bv32
  {
    Mix(h, Ord(c))
  }

  /** The 32-bit hash of a whole string: `AddToHash` folded from 0, left to right. */
  function Hash32(s: string): bv32
  {
    if |s| == 0 then 0 else AddToHash(Hash32(s[..|s| - 1]), s[|s| - 1])
  }

  /** One more character extends the fold by one step. */
  lemma Hash32Prefix(s: string, k: nat)
    requires k < |s|
    ensures Hash32(s[..k + 1]) == AddToHash(Hash32(s[..k]), s[k])
  {
    assert s[..k + 1][..k] == s[..k];
  }

  /** `hash_simple(s, l)`: the fold over the first `l` characters; none when `l <= 0`. */
  method HashSimple(s: string, l: int) returns (h: bv32)
    requires l <= |s|
    ensures l <= 0 ==> h == 0
    ensures l >= 0 ==> h == Hash32(s[..l])
  {
    h := 0;
    var i := 0;
    while i < l
      invariant 0 <= i <= (if l < 0 then 0 else l)
      invariant h == Hash32(s[..i])
    {
      Hash32Prefix(s, i);
      h := AddToHash(h, s[i]);
      i := i + 1;
    }
  }

  /** The index of the first `c` in `s`, or -1 when `s` holds none. */
  function FirstIndex(s: string, c: char): (r: int)
    ensures -1 <= r < |s|
    ensures r == -1 <==> c !in s
    ensures r >= 0 ==> s[r] == c && c !in s[..r]
  {
    if |s| == 0 then -1
    else if s[0] == c then 0
    else
      var k := FirstIndex(s[1..], c);
      assert s[1..][..if k < 0 then 0 else k] == s[1..if k < 0 then 1 else k + 1];
      if k < 0 then -1 else k + 1
  }

  /** `FirstIndex` finds an occurrence exactly when no earlier one exists. */
  lemma FirstIndexAt(s: string, c: char, k: nat)
    requires k < |s| && s[k] == c && c !in s[..k]
    ensures FirstIndex(s, c) == k
  {
    assert forall i | 0 <= i < k :: s[..k][i] == s[i];
  }

  /** The scheme part that `hash_url` hashes: the text before the first ':', or "" without one. */
  function Scheme(url: string): string
  {
    var p := FirstIndex(url, ':');
    if p < 0 then "" else url[..p]
  }

  const TWO_16 := 0x1_0000
  const TWO_32 := 0x1_0000_0000
  const TWO_48 := 0x1_0000_0000_0000
  const TWO_64 := 0x1_0000_0000_0000_0000

  /** A 32-bit hash as the Python integer the source holds. */
  function U32(h: bv32): (r: nat)
    ensures r < TWO_32
  {
    h as int
  }

  /** The 48-bit layout: `hi` (16 bits) in bits 32-47 and `lo` in bits 0-31. */
  function Pack(hi: nat, lo: nat): (r: nat)
    requires hi < TWO_16 && lo < TWO_32
    ensures r < TWO_48
    ensures r / TWO_32 == hi && r % TWO_32 == lo
  {
    hi * TWO_32 + lo
  }

  /** The value `hash_url` computes, for use in specifications. */
  function HashOfUrl(url: string): (r: nat)
    ensures r < TWO_48
    ensures r / TWO_32 == U32(Hash32(Scheme(url))) % TWO_16
    ensures r % TWO_32 == U32(Hash32(url))
    ensures ':' !in url ==> r / TWO_32 == 0
  {
    Pack(U32(Hash32(Scheme(url))) % TWO_16, U32(Hash32(url)))
  }

  /**
   * `hash_url`: find the first ':' (the loop that breaks), then hash the text
   * before it and the whole string, and pack the two.
   */
  method HashUrl(url: string) returns (h: nat)
    ensures h == HashOfUrl(url)
  {
    var l := |url|;
    var prefix := -1;
    var i := 0;
    while i < l
      invariant 0 <= i <= l
      invariant ':' !in url[..i]
      invariant prefix == -1
    {
      if url[i] == ':' {
        prefix := i;
        break;
      }
      i := i + 1;
    }
    var hp := HashSimple(url, prefix);
    var hl := HashSimple(url, l);
    var hi, lo := U32(hp) % TWO_16, U32(hl);
    h := (hi * TWO_32) % TWO_64 + lo % TWO_64;
    HashUrlSteps(url, prefix, hp, hl);
  }

  /** The values `hash_url` meets on its way are the parts of `HashOfUrl`. */
  lemma HashUrlSteps(url: string, prefix: int, hp: bv32, hl: bv32)
    requires -1 <= prefix < |url| && ':' !in url[..if prefix < 0 then |url| else prefix]
    requires prefix >= 0 ==> url[prefix] == ':'
    requires prefix <= 0 ==> hp == 0
    requires prefix >= 0 ==> hp == Hash32(url[..prefix])
    requires hl == Hash32(url[..|url|])
    ensures (U32(hp) % TWO_16 * TWO_32) % TWO_64 + U32(hl) % TWO_64 == HashOfUrl(url)
  {
    assert url[..|url|] == url;
    assert prefix == FirstIndex(url, ':');
    MasksArePack(U32(hp) % TWO_16, U32(hl));
  }

  /** The source's shift, masks and sum compute `Pack` on the values they meet. */
  lemma MasksArePack(hi: nat, lo: nat)
    requires hi < TWO_16 && lo < TWO_32
    ensures (hi * TWO_32) % TWO_64 + lo % TWO_64 == Pack(hi, lo)
  {
  }

  /** The message of the `ValueError` that `hash_function` raises. */
  const ARITY_ERROR := "hash_function requires 1 or 2 arguments"

  const PREFIX_LO := "prefix_lo"
  const PREFIX_HI := "prefix_hi"

  /**
   * `hash_function(*args)`, the SQL function HASH: one argument gives the URL
   * hash; a second argument "prefix_lo" or "prefix_hi" gives the lower or upper
   * bound of the hash range of the URLs whose scheme is the first argument; any
   * other second argument gives the URL hash; 0 or more than 2 arguments raise.
   */
  function HashFunction(args: seq<string>): (r: Result<nat>)
    ensures r.Err? <==> |args| < 1 || |args| > 2
    ensures r.Ok? && (|args| == 1 || (args[1] != PREFIX_LO && args[1] != PREFIX_HI)) ==> r.value == HashOfUrl(args[0])
    ensures r.Ok? && |args| == 2 && args[1] == PREFIX_LO ==> r.value == LowBound(args[0])
    ensures r.Ok? && |args| == 2 && args[1] == PREFIX_HI ==> r.value == HighBound(args[0])
  {
    if |args| < 1 || |args| > 2 then Err(ARITY_ERROR)
    else
      var url := args[0];
      var mode := if |args| == 2 then Some(args[1]) else None;
      var res := HashOfUrl(url);
      LowBitsOfHash(url);
      if mode == Some(PREFIX_LO) then Ok((res % TWO_16) * TWO_32)
      else if mode == Some(PREFIX_HI) then Ok((res % TWO_16) * TWO_32 + 0xFFFF_FFFF)
      else Ok(res)
  }

  /** The low 16 bits of a packed value are those of its low part. */
  lemma LowBitsOfPack(hi: nat, lo: nat)
    requires hi < TWO_16 && lo < TWO_32
    ensures Pack(hi, lo) % TWO_16 == lo % TWO_16
  {
    assert Pack(hi, lo) == (hi * TWO_16) * TWO_16 + lo;
  }

  /**
   * The low 16 bits of a URL hash are the tag of the whole URL, which is why
   * `hash_function` can take a scheme's bounds from `hash_url(scheme)`.
   */
  lemma LowBitsOfHash(url: string)
    ensures HashOfUrl(url) % TWO_16 == Tag(url)
    ensures (HashOfUrl(url) % TWO_16) * TWO_32 == LowBound(url)
  {
    LowBitsOfPack(U32(Hash32(Scheme(url))) % TWO_16, U32(Hash32(url)));
  }

  /** The 16-bit tag of a scheme: the low 16 bits of its 32-bit hash. */
  function Tag(s: string): (t: nat)
    ensures t < TWO_16
  {
    U32(Hash32(s)) % TWO_16
  }

  /** The smallest hash of a URL whose scheme has the tag of `s`: the tag, then 32 zero bits. */
  function LowBound(s: string): nat
  {
    Tag(s) * TWO_32
  }

  /** The largest hash of a URL whose scheme has the tag of `s`: the tag, then 32 one bits. */
  function HighBound(s: string): nat
  {
    LowBound(s) + 0xFFFF_FFFF
  }

  /** A hash lies between the two bounds of `s` exactly when its bits 32 and up are the tag of `s`. */
  lemma BoundsAreTag(s: string, h: nat)
    ensures LowBound(s) <= h <= HighBound(s) <==> h / TWO_32 == Tag(s)
  {
  }

  /** The scheme of `s + ":" + rest` is `s`, when `s` holds no ':'. */
  lemma SchemeOfJoin(s: string, rest: string)
    requires ':' !in s
    ensures Scheme(s + ":" + rest) == s
  {
    var url := s + ":" + rest;
    assert url[..|s|] == s;
    FirstIndexAt(url, ':', |s|);
  }

  /**
   * The range test that `IS_PLACE_QUERY` relies on: every URL whose scheme is
   * `s` hashes into `[HASH(s, 'prefix_lo'), HASH(s, 'prefix_hi')]`.
   */
  lemma {:induction false} SchemeUrlInRange(s: string, rest: string)
    requires ':' !in s
    ensures HashFunction([s, PREFIX_LO]).Ok? && HashFunction([s, PREFIX_HI]).Ok?
    ensures HashFunction([s, PREFIX_LO]).value <= HashOfUrl(s + ":" + rest) <= HashFunction([s, PREFIX_HI]).value
  {
    SchemeOfJoin(s, rest);
    BoundsAreTag(s, HashOfUrl(s + ":" + rest));
  }

  /**
   * Both directions of the range test on URL hashes: a URL hashes into the
   * range of `s` exactly when its scheme has the same 16-bit tag as `s` (so
   * the test also admits a scheme whose tag collides with that of `s`).
   */
  lemma InRangeIffTagsMatch(s: string, url: string)
    ensures LowBound(s) <= HashOfUrl(url) <= HighBound(s) <==> Tag(Scheme(url)) == Tag(s)
  {
    BoundsAreTag(s, HashOfUrl(url));
  }
}
