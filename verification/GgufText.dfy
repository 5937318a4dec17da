/** What the header reader reports, in terms of the bytes of the file alone: type tags, widths
    and texts are written out as numbers.
 */
module GgufText {
  import opened GgufFormat
  import opened GgufReader

  // ----- Numbers -----

  /** Little-endian: every further byte weighs 256 times as much. */
  lemma {:induction false} FromLePositions(bs: seq<Byte>, b: Byte)
    ensures FromLe([]) == 0 && FromLe(bs + [b]) == FromLe(bs) + b * Pow256(|bs|)
  {
    if bs == [] {
      assert [] + [b] == [b] && [b][1..] == [];
    } else {
      assert (bs + [b])[1..] == bs[1..] + [b];
      FromLePositions(bs[1..], b);
    }
  }

  lemma PowersOf256()
    ensures Pow256(0) == 1 && Pow256(1) == 256 && Pow256(2) == 65_536 && Pow256(3) == 16_777_216
    ensures Pow256(4) == 4_294_967_296 && Pow256(8) == 18_446_744_073_709_551_616
  {
  }

  /** Decimal notation: an optional minus sign, then digits without a leading zero. */
  predicate Canonical(t: Text) {
    var digits := if t != [] && t[0] == 45 then t[1..] else t;
    && digits != []
    && (forall i :: 0 <= i < |digits| ==> 48 <= digits[i] <= 57)
    && (|digits| > 1 || t != digits ==> digits[0] != 48)
  }

  /** The digits read so far count ten times as much once another digit follows. */
  lemma ReadDigitsPositions(t: Text, c: Byte)
    ensures ReadDigits([]) == 0 && ReadDigits(t + [c]) == 10 * ReadDigits(t) + (c - 48)
  {
    assert (t + [c])[..|t|] == t;
  }

  lemma {:induction false} DigitsLead(n: nat)
    ensures n > 0 ==> Digits(n)[0] != 48
    ensures n < 10 <==> |Digits(n)| == 1
  {
    if n >= 10 {
      DigitsLead(n / 10);
    }
  }

  lemma DecimalIsCanonical(i: int)
    ensures Canonical(Decimal(i)) && ReadDecimal(Decimal(i)) == i
  {
    DecimalReadsBack(i);
    if i < 0 {
      DigitsLead(-i);
      assert Decimal(i)[1..] == Digits(-i);
    } else {
      DigitsLead(i);
    }
  }

  // ----- Texts -----

  predicate Spells(t: Text, i: int) {
    Canonical(t) && ReadDecimal(t) == i
  }

  /** n read as a two's complement number of `modulus` values. */
  predicate IsSigned(i: int, n: nat, modulus: nat)
    requires modulus > 0
  {
    0 - modulus <= 2 * i < modulus && (i - n) % modulus == 0
  }

  /** What the type with number `tag` makes of the bytes of a value. */
  predicate ShowsBytes(f: Floats, tag: int, bytes: seq<Byte>, text: Text) {
    var n := FromLe(bytes);
    && (tag == 0 || tag == 1 ==> |bytes| == 1 && text == [48])
    && (tag == 2 ==> |bytes| == 2 && Spells(text, n))
    && (tag == 3 ==> |bytes| == 2 && Canonical(text) && IsSigned(ReadDecimal(text), n, 65_536))
    && (tag == 4 ==> |bytes| == 4 && Spells(text, n))
    && (tag == 5 ==> |bytes| == 4 && Canonical(text) && IsSigned(ReadDecimal(text), n, 4_294_967_296))
    && (tag == 6 ==> |bytes| == 4 && text == f.show32(n))
    && (tag == 7 ==> |bytes| == 1 && text == if bytes[0] != 0 then [116, 114, 117, 101] else [102, 97, 108, 115, 101])
    && (tag == 8 ==> |bytes| >= 8 && text == bytes[8..] && FromLe(bytes[..8]) == |text| <= 1_048_576)
    && (tag == 9 ==> |bytes| >= 12 && text == [])
    && (tag == 10 ==> |bytes| == 8 && Spells(text, n))
    && (tag == 11 ==> |bytes| == 8 && Canonical(text) && IsSigned(ReadDecimal(text), n, 18_446_744_073_709_551_616))
    && (tag == 12 ==> |bytes| == 8 && text == f.show64(n))
    && 0 <= tag <= 12
  }

  lemma ShiftedByModulus(n: nat, modulus: nat)
    requires modulus > 0
    ensures (n - n) % modulus == 0 && (n - modulus - n) % modulus == 0
  {
    assert n - modulus - n == modulus * (-1);
    assert (modulus * (-1)) % modulus == 0;
  }

  lemma SignedShows(bytes: seq<Byte>, width: nat)
    requires |bytes| == width > 0
    ensures
      var t := Decimal(Signed(FromLe(bytes), width));
      Canonical(t) && IsSigned(ReadDecimal(t), FromLe(bytes), Pow256(width))
  {
    var n := FromLe(bytes);
    LeOfFromLe(bytes);
    DecimalIsCanonical(Signed(n, width));
    ShiftedByModulus(n, Pow256(width));
  }

  lemma FixedShows(f: Floats, tag: int, bytes: seq<Byte>)
    requires Width(tag) > 0 && |bytes| == Width(tag)
    ensures ShowsBytes(f, tag, bytes, ScalarText(f, tag, FromLe(bytes)))
  {
    var n := FromLe(bytes);
    DecimalIsCanonical(n);
    PowersOf256();
    hide Canonical, ReadDecimal, Pow256, Signed, IsSigned;
    if tag == 3 || tag == 5 || tag == 11 {
      SignedShows(bytes, Width(tag));
    }
  }

  /** Whatever is read as type `tag` reports exactly what its bytes mean; a fixed-size type is
      read whenever its bytes are there, a string whenever its length is within 1 MiB and its
      bytes are there, and no other number is a type. */
  lemma ReadShowsBytes(f: Floats, tag: int, s: seq<Byte>)
    ensures
      var r := ReadByType(f, tag, s);
      r.Got? ==> r.used <= |s| && ShowsBytes(f, tag, s[..r.used], r.text)
    ensures ReadByType(f, tag, s).Got? ==> 0 <= tag <= 12
    ensures tag in {0, 1, 7} ==> (ReadByType(f, tag, s).Got? <==> |s| >= 1)
    ensures tag in {2, 3} ==> (ReadByType(f, tag, s).Got? <==> |s| >= 2)
    ensures tag in {4, 5, 6} ==> (ReadByType(f, tag, s).Got? <==> |s| >= 4)
    ensures tag in {10, 11, 12} ==> (ReadByType(f, tag, s).Got? <==> |s| >= 8)
    ensures tag == 8 ==> (ReadByType(f, tag, s).Got? <==> StringFits(s))
  {
    hide ScalarText, FromLe, SkipAll, ShowsBytes;
    if Width(tag) > 0 {
      if |s| >= Width(tag) {
        FixedShows(f, tag, s[..Width(tag)]);
      }
    } else if tag == 8 {
      StringShows(f, s);
    } else if tag == 9 && ReadByType(f, tag, s).Got? {
      ArrayShows(f, s[..ReadByType(f, tag, s).used]);
    }
  }

  predicate StringFits(s: seq<Byte>) {
    |s| >= 8 && FromLe(s[..8]) <= 1_048_576 && 8 + FromLe(s[..8]) <= |s|
  }

  lemma StringShows(f: Floats, s: seq<Byte>)
    ensures ReadStr(s).Got? <==> StringFits(s)
    ensures ReadStr(s).Got? ==> ReadStr(s).used <= |s| && ShowsBytes(f, 8, s[..ReadStr(s).used], ReadStr(s).text)
  {
    if ReadStr(s).Got? {
      var used := ReadStr(s).used;
      assert s[..used][..8] == s[..8] && s[..used][8..] == s[8..used];
    }
  }

  lemma ArrayShows(f: Floats, bytes: seq<Byte>)
    requires |bytes| >= 12
    ensures ShowsBytes(f, 9, bytes, [])
  {
  }

  // ----- Files -----

  /** A file is accepted exactly when its 24 header bytes are there, begin with "GGUF" and name
      version 2 or 3; the counts are the next two little-endian numbers. */
  lemma HeaderBytes(f: Floats, s: seq<Byte>)
    ensures ReadFile(f, s).Ok? <==>
            |s| >= 24 && s[..4] == [71, 71, 85, 70] && (FromLe(s[4..8]) == 2 || FromLe(s[4..8]) == 3)
    ensures ReadFile(f, s).Ok? ==>
              var h := ReadFile(f, s).value;
              h.version == FromLe(s[4..8]) && h.tensorCount == FromLe(s[8..16]) && h.kvCount == FromLe(s[16..24])
  {
    hide Collect, FromLe;
  }

  /** At offset o of s stands a pair of that key, and `text` is what its value's bytes mean. */
  predicate PairAt(f: Floats, s: seq<Byte>, o: nat, n: nat, m: nat, key: Text, text: Text) {
    && 8 <= n && 4 <= m && o + n + m <= |s|
    && FromLe(s[o..o + 8]) == |key| <= 1_048_576 && s[o + 8..o + n] == key
    && text != [] && ShowsBytes(f, FromLe(s[o + n..o + n + 4]), s[o + n + 4..o + n + m], text)
  }

  lemma PairIsAt(f: Floats, s: seq<Byte>)
    requires ReadStr(s).Got? && ReadValue(f, s[ReadStr(s).used..]).Got?
    requires ReadValue(f, s[ReadStr(s).used..]).text != []
    ensures
      var n := ReadStr(s).used;
      var r := ReadValue(f, s[n..]);
      PairAt(f, s, 0, n, r.used, ReadStr(s).text, r.text)
  {
    hide FromLe, ShowsBytes, ReadByType;
    var n := ReadStr(s).used;
    var r := ReadValue(f, s[n..]);
    var tag := FromLe(s[n..][..4]);
    ReadShowsBytes(f, tag, s[n..][4..]);
    assert s[n..][..4] == s[n..n + 4] && s[n..][4..][..r.used - 4] == s[n + 4..n + r.used];
    assert s[0..8] == s[..8];
  }

  lemma PairMoved(f: Floats, s: seq<Byte>, d: nat, o: nat, n: nat, m: nat, key: Text, text: Text)
    requires d <= |s| && PairAt(f, s[d..], o, n, m, key, text)
    ensures PairAt(f, s, d + o, n, m, key, text)
  {
    hide FromLe, ShowsBytes;
    var t := s[d..];
    assert t[o..o + 8] == s[d + o..d + o + 8] && t[o + 8..o + n] == s[d + o + 8..d + o + n];
    assert t[o + n..o + n + 4] == s[d + o + n..d + o + n + 4];
    assert t[o + n + 4..o + n + m] == s[d + o + n + 4..d + o + n + m];
  }

  lemma {:induction false} CollectShows(f: Floats, count: nat, s: seq<Byte>, meta: map<Text, Text>, key: Text)
    returns (o: nat, n: nat, m: nat)
    requires key in Collect(f, count, s, meta)
    requires key !in meta || Collect(f, count, s, meta)[key] != meta[key]
    ensures PairAt(f, s, o, n, m, key, Collect(f, count, s, meta)[key])
    decreases count
  {
    hide Collect, ReadStr, ReadValue, PairAt;
    o, n, m := 0, 0, 0;
    CollectNone(f, s, meta);
    CollectOne(f, count, s, meta);
    var k := ReadStr(s);
    var v := ReadValue(f, s[k.used..]);
    var next := Store(meta, k.text, v.text);
    var rest := s[k.used..][v.used..];
    if key in next && Collect(f, count - 1, rest, next)[key] == next[key] {
      PairIsAt(f, s);
      return 0, k.used, v.used;
    }
    o, n, m := CollectShows(f, count - 1, rest, next, key);
    assert rest == s[k.used + v.used..];
    PairMoved(f, s, k.used + v.used, o, n, m, key, Collect(f, count - 1, rest, next)[key]);
    o := k.used + v.used + o;
  }

  /** Every entry of the reported metadata stands in the file: at some offset behind the header
      there is a pair of that key, and the reported text is what its value's bytes mean. */
  lemma FileShowsBytes(f: Floats, s: seq<Byte>, key: Text) returns (o: nat, n: nat, m: nat)
    requires ReadFile(f, s).Ok? && key in ReadFile(f, s).value.metadata
    ensures 24 <= o && PairAt(f, s, o, n, m, key, ReadFile(f, s).value.metadata[key])
  {
    hide Collect, PairAt, FromLe;
    o, n, m := CollectShows(f, FromLe(s[16..24]), s[24..], map[], key);
    PairMoved(f, s, 24, o, n, m, key, ReadFile(f, s).value.metadata[key]);
    o := 24 + o;
  }

  /** An array is its element type, its count, and that many elements one behind the other. */
  lemma ArrayBytes(f: Floats, s: seq<Byte>)
    ensures
      ReadByType(f, 9, s).Got? <==>
      |s| >= 12 && SkipAll(f, FromLe(s[..4]), FromLe(s[4..12]), s[12..]).Past?
    ensures ReadByType(f, 9, s).Got? ==>
              ReadByType(f, 9, s).used == 12 + SkipAll(f, FromLe(s[..4]), FromLe(s[4..12]), s[12..]).used
  {
    hide SkipAll, FromLe;
  }
}
