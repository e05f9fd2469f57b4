/**
 * How SQLite compares the TEXT values of the importer's queries: a Python `str`
 * is bound as UTF-8, and the default BINARY collation compares the bytes as
 * `memcmp` does, a shorter string first when one is a prefix of the other.
 * `'place:' || X'FFFF'` is the text "place:" followed by two 0xFF bytes, which
 * no UTF-8 text contains.
 */
module SqlText {
  import opened Results

  /** The UTF-8 encoding of one Unicode scalar value (section 3 of RFC 3629). */
  function EncodeChar(c: char): (r: seq<byte>)
    ensures 1 <= |r| <= 4
    ensures forall i :: 0 <= i < |r| ==> r[i] < 0xF5
    ensures r[0] < 0x80 <==> c as int < 0x80
    ensures c as int < 0x80 ==> r == [c as int]
  {
    var cp := c as int;
    if cp < 0x80 then [cp]
    else if cp < 0x800 then [0xC0 + cp / 0x40, 0x80 + cp % 0x40]
    else if cp < 0x1_0000 then [0xE0 + cp / 0x1000, 0x80 + (cp / 0x40) % 0x40, 0x80 + cp % 0x40]
    else [0xF0 + cp / 0x4_0000, 0x80 + (cp / 0x1000) % 0x40, 0x80 + (cp / 0x40) % 0x40, 0x80 + cp % 0x40]
  }

  /** The UTF-8 bytes of a string, as `sqlite3` binds a Python `str`. */
  function Utf8(s: string): (r: seq<byte>)
    ensures |r| >= |s|
    ensures forall i :: 0 <= i < |r| ==> r[i] < 0xF5
  {
    if |s| == 0 then [] else EncodeChar(s[0]) + Utf8(s[1..])
  }

  /** The BINARY collation's `<=`: `a` is a prefix of `b`, or is smaller at the first difference. */
  predicate LessEq(a: seq<byte>, b: seq<byte>)
  {
    |a| == 0 || (|b| > 0 && (a[0] < b[0] || (a[0] == b[0] && LessEq(a[1..], b[1..]))))
  }

  /** `x BETWEEN lo AND hi`, which is `x >= lo AND x <= hi`. */
  predicate Between(x: seq<byte>, lo: seq<byte>, hi: seq<byte>)
  {
    LessEq(lo, x) && LessEq(x, hi)
  }

  /** The upper bound of a prefix range: the prefix followed by two 0xFF bytes (`X'FFFF'`). */
  function UpperBound(p: seq<byte>): (r: seq<byte>)
    ensures |r| == |p| + 2 && r[..|p|] == p
  {
    p + [0xFF, 0xFF]
  }

  /** `p` is a prefix of `s`. */
  predicate IsPrefix<T(==)>(p: seq<T>, s: seq<T>)
  {
    |p| <= |s| && s[..|p|] == p
  }

  /** A non-empty prefix: the first elements agree and the rest is a prefix of the rest. */
  lemma PrefixCons<T>(p: seq<T>, s: seq<T>)
    requires |p| > 0 && |s| > 0
    ensures IsPrefix(p, s) <==> (s[0] == p[0] && IsPrefix(p[1..], s[1..]))
  {
    if |p| <= |s| {
      assert s[..|p|] == [s[0]] + s[1..][..|p| - 1];
      assert p == [p[0]] + p[1..];
    }
  }

  /**
   * On text without 0xFF bytes, lying between `p` and `p || X'FFFF'` is the
   * same as starting with `p`.
   */
  lemma {:induction false} BetweenIffPrefix(x: seq<byte>, p: seq<byte>)
    requires forall i :: 0 <= i < |x| ==> x[i] < 0xFF
    ensures Between(x, p, UpperBound(p)) <==> IsPrefix(p, x)
    decreases |p|
  {
    if |p| == 0 {
      assert LessEq(x, UpperBound(p)) by {
        if |x| > 0 {
          assert UpperBound(p)[0] == 0xFF;
        }
      }
    } else if |x| > 0 {
      var u := UpperBound(p);
      assert u[0] == p[0] && u[1..] == UpperBound(p[1..]);
      BetweenIffPrefix(x[1..], p[1..]);
      PrefixCons(p, x);
    }
  }

  /** A string of ASCII characters: each encodes as the one byte of its code. */
  predicate IsAscii(s: string)
  {
    forall i :: 0 <= i < |s| ==> s[i] as int < 0x80
  }

  /** The bytes of `s` start with the bytes of an ASCII string `a` exactly when `s` starts with `a`. */
  lemma {:induction false} Utf8AsciiPrefix(a: string, s: string)
    requires IsAscii(a)
    ensures IsPrefix(Utf8(a), Utf8(s)) <==> IsPrefix(a, s)
    decreases |a|
  {
    if |a| > 0 {
      assert Utf8(a) == [a[0] as int] + Utf8(a[1..]);
      if |s| == 0 {
        assert Utf8(s) == [];
      } else {
        var e := EncodeChar(s[0]);
        assert Utf8(s) == e + Utf8(s[1..]);
        Utf8AsciiPrefix(a[1..], s[1..]);
        PrefixCons(a, s);
        PrefixCons(Utf8(a), Utf8(s));
        if e[0] == a[0] as int {
          assert e == [s[0] as int];
          assert Utf8(s)[1..] == Utf8(s[1..]);
        }
      }
    }
  }

  /** The scheme prefix of the Places query URLs. */
  const PLACE_PREFIX := "place:"

  /**
   * The `hidden` test of `maybe_insert_place`: `url BETWEEN 'place:' AND
   * 'place:' || X'FFFF'` on the UTF-8 text of the URL.
   */
  predicate InPlaceRange(url: string)
  {
    Between(Utf8(url), Utf8(PLACE_PREFIX), UpperBound(Utf8(PLACE_PREFIX)))
  }

  /** The range test holds exactly for the URLs that start with "place:". */
  lemma InPlaceRangeIffPrefix(url: string)
    ensures InPlaceRange(url) <==> IsPrefix(PLACE_PREFIX, url)
  {
    BetweenIffPrefix(Utf8(url), Utf8(PLACE_PREFIX));
    assert IsAscii(PLACE_PREFIX);
    Utf8AsciiPrefix(PLACE_PREFIX, url);
  }

  /**
   * The row a query without ORDER BY reads first (`fetchone`, a scalar
   * subquery): the first one in table order that satisfies the WHERE clause.
   */
  function FirstWhere<T>(rows: seq<T>, where: T -> bool): (r: Option<nat>)
    ensures r.None? <==> forall i :: 0 <= i < |rows| ==> !where(rows[i])
    ensures r.Some? ==> r.value < |rows| && where(rows[r.value])
    ensures r.Some? ==> forall j :: 0 <= j < r.value ==> !where(rows[j])
  {
    if |rows| == 0 then None
    else if where(rows[0]) then Some(0)
    else
      var rest := FirstWhere(rows[1..], where);
      assert forall i :: 1 <= i < |rows| ==> rows[i] == rows[1..][i - 1];
      if rest.None? then None else Some(rest.value + 1)
  }

  /**
   * The rowid SQLite gives a new row of a table with an INTEGER PRIMARY KEY
   * and no AUTOINCREMENT: one more than the largest id, or 1 in an empty table.
   */
  function NextRowId<T>(rows: seq<T>, id: T -> int): (r: int)
    ensures forall i :: 0 <= i < |rows| ==> id(rows[i]) < r
    ensures |rows| == 0 ==> r == 1
    ensures |rows| > 0 ==> exists i :: 0 <= i < |rows| && r == id(rows[i]) + 1
  {
    if |rows| == 0 then 1
    else if |rows| == 1 then id(rows[0]) + 1
    else
      var init := NextRowId(rows[..|rows| - 1], id);
      var last := id(rows[|rows| - 1]) + 1;
      assert forall i :: 0 <= i < |rows| - 1 ==> rows[i] == rows[..|rows| - 1][i];
      if last > init then last else init
  }
}
