/** What the header reader is for: it reads back what an encoder wrote, it survives cut
    files, and on any bytes at all it reports exactly the longest readable run of pairs.
 */
module GgufTheorems {
  import opened GgufFormat
  import opened GgufReader

  // ----- Reading back one value -----

  predicate AllOk(vs: seq<Value>, ty: int) {
    forall v :: v in vs ==> WellFormed(v) && Tag(v) == ty
  }

  lemma ReadStrOfEncode(bytes: Text, rest: seq<Byte>)
    requires |bytes| <= MAX_STRING
    ensures ReadStr(EncodeStr(bytes) + rest) == Got(bytes, |EncodeStr(bytes)|)
  {
    var s := EncodeStr(bytes) + rest;
    FromLeOfLe(|bytes|, 8);
    assert s[..8] == Le(|bytes|, 8);
    assert s[8..8 + |bytes|] == bytes;
  }

  lemma ReadScalarOfEncode(f: Floats, v: Value, rest: seq<Byte>)
    requires WellFormed(v) && IsScalar(v)
    ensures ReadByType(f, Tag(v), Encode(v) + rest) == Got(Shown(f, v), |Encode(v)|)
  {
    RawFits(v);
    var w := Width(Tag(v));
    FromLeOfLe(Raw(v), w);
    assert (Encode(v) + rest)[..w] == Le(Raw(v), w);
  }

  lemma ReadArrayOfEncode(f: Floats, ty: int, elems: seq<Value>, rest: seq<Byte>)
    requires WellFormed(Arr(ty, elems))
    requires SkipAll(f, ty, |elems|, EncodeAll(elems) + rest) == Past(|EncodeAll(elems)|)
    ensures ReadByType(f, ARRAY, Encode(Arr(ty, elems)) + rest) == Got([], |Encode(Arr(ty, elems))|)
  {
    hide ReadByType, SkipAll, EncodeAll, FromLe, Le;
    var s := Encode(Arr(ty, elems)) + rest;
    FromLeOfLe(ty, 4);
    FromLeOfLe(|elems|, 8);
    assert s[..4] == Le(ty, 4) && s[4..12] == Le(|elems|, 8);
    assert s[12..] == EncodeAll(elems) + rest;
    ReadArray(f, s);
  }

  /** Reading an encoded value shows its text and stops right behind it. */
  lemma {:induction false} ReadOfEncode(f: Floats, v: Value, rest: seq<Byte>)
    requires WellFormed(v)
    ensures ReadByType(f, Tag(v), Encode(v) + rest) == Got(Shown(f, v), |Encode(v)|)
    decreases v, 0
  {
    match v {
      case Str(bytes) =>
        ReadStrOfEncode(bytes, rest);
      case Arr(ty, elems) =>
        SkipOfEncode(f, ty, elems, rest);
        ReadArrayOfEncode(f, ty, elems, rest);
      case _ =>
        ReadScalarOfEncode(f, v, rest);
    }
  }

  lemma {:induction false} SkipOfEncode(f: Floats, ty: int, elems: seq<Value>, rest: seq<Byte>)
    requires AllOk(elems, ty)
    ensures SkipAll(f, ty, |elems|, EncodeAll(elems) + rest) == Past(|EncodeAll(elems)|)
    decreases elems, 0
  {
    hide ReadByType, SkipAll, Encode, Shown;
    if elems == [] {
      SkipNone(f, ty, EncodeAll(elems) + rest);
    } else {
      SkipOne(f, ty, |elems|, EncodeAll(elems) + rest);
      var first, others := Encode(elems[0]), EncodeAll(elems[1..]);
      ReadOfEncode(f, elems[0], others + rest);
      assert EncodeAll(elems) + rest == first + (others + rest);
      assert (first + (others + rest))[|first|..] == others + rest;
      SkipOfEncode(f, ty, elems[1..], rest);
    }
  }

  // ----- Reading arbitrary bytes -----

  ghost predicate Spells(f: Floats, v: Value, ty: int, s: seq<Byte>, text: Text, used: nat) {
    WellFormed(v) && Tag(v) == ty && used <= |s| && Encode(v) == s[..used] && Shown(f, v) == text
  }

  lemma StrOfRead(s: seq<Byte>)
    requires ReadStr(s).Got?
    ensures |ReadStr(s).text| <= MAX_STRING && EncodeStr(ReadStr(s).text) == s[..ReadStr(s).used]
  {
    LeOfFromLe(s[..8]);
  }

  /** Whatever the reader accepts is the encoding of some value: the bytes it used spell it,
      and the text it returns is that value's text. */
  lemma {:induction false} ValueOfRead(f: Floats, ty: int, s: seq<Byte>) returns (v: Value)
    requires ReadByType(f, ty, s).Got?
    ensures Spells(f, v, ty, s, ReadByType(f, ty, s).text, ReadByType(f, ty, s).used)
    decreases |s|, 0
  {
    if Width(ty) > 0 {
      var bytes := s[..Width(ty)];
      LeOfFromLe(bytes);
      OfRawFits(ty, FromLe(bytes));
      v := OfRaw(ty, FromLe(bytes));
    } else if ty == STRING {
      StrOfRead(s);
      v := Str(ReadStr(s).text);
    } else {
      ReadArray(f, s);
      var elems := ValuesOfSkip(f, FromLe(s[..4]), FromLe(s[4..12]), s[12..]);
      v := ArrayOfRead(f, s, elems);
    }
  }

  lemma ArrayOfRead(f: Floats, s: seq<Byte>, elems: seq<Value>) returns (v: Value)
    requires 12 <= |s| && SkipAll(f, FromLe(s[..4]), FromLe(s[4..12]), s[12..]).Past?
    requires |elems| == FromLe(s[4..12]) && AllOk(elems, FromLe(s[..4]))
    requires EncodeAll(elems) == s[12..][..SkipAll(f, FromLe(s[..4]), FromLe(s[4..12]), s[12..]).used]
    ensures Spells(f, v, ARRAY, s, [], 12 + |EncodeAll(elems)|)
  {
    hide SkipAll, EncodeAll, FromLe, Le;
    LeOfFromLe(s[..4]);
    LeOfFromLe(s[4..12]);
    v := Arr(FromLe(s[..4]), elems);
    var n := |EncodeAll(elems)|;
    assert s[..12 + n] == s[..4] + s[4..12] + s[12..][..n];
  }

  lemma {:induction false} ValuesOfSkip(f: Floats, ty: int, count: nat, s: seq<Byte>) returns (elems: seq<Value>)
    requires SkipAll(f, ty, count, s).Past?
    ensures |elems| == count && AllOk(elems, ty)
    ensures EncodeAll(elems) == s[..SkipAll(f, ty, count, s).used]
    decreases |s|, 1, count
  {
    hide SkipAll, ReadByType, Encode, Shown;
    if count == 0 {
      SkipNone(f, ty, s);
      elems := [];
    } else {
      SkipOne(f, ty, count, s);
      var n := ReadByType(f, ty, s).used;
      var v := ValueOfRead(f, ty, s);
      var others := ValuesOfSkip(f, ty, count - 1, s[n..]);
      elems := [v] + others;
      var m := SkipAll(f, ty, count - 1, s[n..]).used;
      assert s[..n + m] == s[..n] + s[n..][..m];
    }
  }

  /** A cut encoding is never accepted: no encoding is a prefix of another of its type. */
  lemma CutValueFails(f: Floats, v: Value, n: nat)
    requires WellFormed(v) && n < |Encode(v)|
    ensures ReadByType(f, Tag(v), Encode(v)[..n]).Fail?
  {
    hide ReadByType, Encode, Shown;
    var cut := Encode(v)[..n];
    if ReadByType(f, Tag(v), cut).Got? {
      var w := ValueOfRead(f, Tag(v), cut);
      var rest := Encode(v)[|Encode(w)|..];
      assert Encode(w) + rest == Encode(v) + [];
      ReadOfEncode(f, w, rest);
      ReadOfEncode(f, v, []);
    }
  }

  lemma CutStrFails(bytes: Text, n: nat)
    requires |bytes| <= MAX_STRING && n < |EncodeStr(bytes)|
    ensures ReadStr(EncodeStr(bytes)[..n]).Fail?
  {
    if n >= 8 {
      FromLeOfLe(|bytes|, 8);
      assert EncodeStr(bytes)[..n][..8] == Le(|bytes|, 8);
    }
  }

  // ----- Pairs -----

  lemma ReadValueOfEncode(f: Floats, v: Value, rest: seq<Byte>)
    requires WellFormed(v)
    ensures ReadValue(f, Le(Tag(v), 4) + Encode(v) + rest) == Got(Shown(f, v), 4 + |Encode(v)|)
  {
    var s := Le(Tag(v), 4) + Encode(v) + rest;
    FromLeOfLe(Tag(v), 4);
    assert s[..4] == Le(Tag(v), 4) && s[4..] == Encode(v) + rest;
    ReadOfEncode(f, v, rest);
  }

  lemma CutReadValueFails(f: Floats, v: Value, n: nat)
    requires WellFormed(v) && n < 4 + |Encode(v)|
    ensures ReadValue(f, (Le(Tag(v), 4) + Encode(v))[..n]).Fail?
  {
    if n >= 4 {
      var s := (Le(Tag(v), 4) + Encode(v))[..n];
      FromLeOfLe(Tag(v), 4);
      assert s[..4] == Le(Tag(v), 4) && s[4..] == Encode(v)[..n - 4];
      CutValueFails(f, v, n - 4);
    }
  }

  /** A whole pair is stored, and reading goes on behind it. */
  lemma CollectWholePair(f: Floats, count: nat, p: Pair, rest: seq<Byte>, meta: map<Text, Text>)
    requires count > 0 && PairOk(p)
    ensures Collect(f, count, EncodePair(p) + rest, meta)
         == Collect(f, count - 1, rest, Store(meta, p.key, Shown(f, p.value)))
  {
    hide Collect, ReadStr, ReadValue, Encode, Le;
    var key, value := EncodeStr(p.key), Le(Tag(p.value), 4) + Encode(p.value);
    var s := EncodePair(p) + rest;
    assert s == key + (value + rest);
    ReadStrOfEncode(p.key, value + rest);
    assert s[|key|..] == value + rest;
    ReadValueOfEncode(f, p.value, rest);
    assert (value + rest)[|value|..] == rest;
    CollectOne(f, count, s, meta);
  }

  /** A cut pair ends the reading and leaves what was stored untouched. */
  lemma CollectCutPair(f: Floats, count: nat, p: Pair, n: nat, meta: map<Text, Text>)
    requires PairOk(p) && n < |EncodePair(p)|
    ensures Collect(f, count, EncodePair(p)[..n], meta) == meta
  {
    var key, value := EncodeStr(p.key), Le(Tag(p.value), 4) + Encode(p.value);
    var s := EncodePair(p)[..n];
    hide Collect, ReadStr, ReadValue, Encode, Le;
    if count > 0 {
      CollectOne(f, count, s, meta);
      if n < |key| {
        assert s == key[..n];
        CutStrFails(p.key, n);
      } else {
        assert s == key + value[..n - |key|];
        ReadStrOfEncode(p.key, value[..n - |key|]);
        assert s[|key|..] == value[..n - |key|];
        CutReadValueFails(f, p.value, n - |key|);
      }
    }
  }

  /** What a list of pairs stores on top of `meta`. */
  function StoreAll(f: Floats, meta: map<Text, Text>, ps: seq<Pair>): map<Text, Text>
    decreases |ps|
  {
    if ps == [] then meta
    else StoreAll(f, Store(meta, ps[0].key, Shown(f, ps[0].value)), ps[1..])
  }

  /** How many leading pairs lie wholly inside the first `room` bytes of their encoding. */
  function Whole(ps: seq<Pair>, room: nat): (m: nat)
    requires PairsOk(ps)
    ensures m <= |ps|
  {
    if ps == [] || room < |EncodePair(ps[0])| then 0
    else 1 + Whole(ps[1..], room - |EncodePair(ps[0])|)
  }

  /** Whole is the longest prefix that fits. */
  lemma {:induction false} WholeIsLongest(ps: seq<Pair>, room: nat, m: nat)
    requires PairsOk(ps) && m <= |ps|
    ensures |EncodePairs(ps[..m])| <= room <==> m <= Whole(ps, room)
  {
    hide EncodePair;
    if m > 0 {
      assert ps[..m][1..] == ps[1..][..m - 1];
      assert |EncodePairs(ps[..m])| == |EncodePair(ps[0])| + |EncodePairs(ps[1..][..m - 1])|;
      if |EncodePair(ps[0])| <= room {
        WholeIsLongest(ps[1..], room - |EncodePair(ps[0])|, m - 1);
      }
    }
  }

  lemma CollectNothing(f: Floats, count: nat, meta: map<Text, Text>)
    ensures Collect(f, count, [], meta) == meta
  {
  }

  /** Pairs cut after `room` bytes yield exactly the whole ones. */
  lemma {:induction false} CollectCut(f: Floats, count: nat, ps: seq<Pair>, room: nat, meta: map<Text, Text>)
    requires PairsOk(ps) && |ps| <= count && room <= |EncodePairs(ps)|
    ensures Collect(f, count, EncodePairs(ps)[..room], meta) == StoreAll(f, meta, ps[..Whole(ps, room)])
  {
    hide Collect, Encode, EncodePair;
    if ps == [] {
      assert EncodePairs(ps)[..room] == [];
      CollectNothing(f, count, meta);
    } else {
      var first, others := EncodePair(ps[0]), EncodePairs(ps[1..]);
      if room < |first| {
        assert EncodePairs(ps)[..room] == first[..room];
        CollectCutPair(f, count, ps[0], room, meta);
      } else {
        var left := room - |first|;
        assert EncodePairs(ps)[..room] == first + others[..left];
        CollectWholePair(f, count, ps[0], others[..left], meta);
        CollectCut(f, count - 1, ps[1..], left, Store(meta, ps[0].key, Shown(f, ps[0].value)));
        var m := Whole(ps, room);
        assert ps[..m][1..] == ps[1..][..m - 1];
      }
    }
  }

  /** All pairs read back, whatever follows them. */
  lemma {:induction false} CollectAll(f: Floats, ps: seq<Pair>, rest: seq<Byte>, meta: map<Text, Text>)
    requires PairsOk(ps)
    ensures Collect(f, |ps|, EncodePairs(ps) + rest, meta) == StoreAll(f, meta, ps)
  {
    if ps != [] {
      var first, others := EncodePair(ps[0]), EncodePairs(ps[1..]);
      assert EncodePairs(ps) + rest == first + (others + rest);
      CollectWholePair(f, |ps|, ps[0], others + rest, meta);
      CollectAll(f, ps[1..], rest, Store(meta, ps[0].key, Shown(f, ps[0].value)));
    }
  }

  // ----- Whole files -----

  predicate HeaderOk(version: nat, tensors: nat, count: nat) {
    2 <= version <= 3 && FitsUnsigned(tensors, 8) && FitsUnsigned(count, 8)
  }

  lemma ReadFileOfHeader(f: Floats, version: nat, tensors: nat, count: nat, body: seq<Byte>)
    requires HeaderOk(version, tensors, count)
    ensures ReadFile(f, EncodeHeader(version, tensors, count) + body)
         == Ok(Header(version, tensors, count, Collect(f, count, body, map[])))
  {
    var s := EncodeHeader(version, tensors, count) + body;
    FromLeOfLe(version, 4);
    FromLeOfLe(tensors, 8);
    FromLeOfLe(count, 8);
    assert s[..4] == MAGIC && s[4..8] == Le(version, 4) && s[8..16] == Le(tensors, 8);
    assert s[16..24] == Le(count, 8) && s[24..] == body;
  }

  /** Round trip: a file of well-formed pairs, with any bytes behind them, reads back as the
      map its pairs store. */
  lemma FileRoundTrip(f: Floats, version: nat, tensors: nat, ps: seq<Pair>, rest: seq<Byte>)
    requires PairsOk(ps) && HeaderOk(version, tensors, |ps|)
    ensures ReadFile(f, EncodeHeader(version, tensors, |ps|) + (EncodePairs(ps) + rest))
         == Ok(Header(version, tensors, |ps|, StoreAll(f, map[], ps)))
  {
    ReadFileOfHeader(f, version, tensors, |ps|, EncodePairs(ps) + rest);
    CollectAll(f, ps, rest, map[]);
  }

  /** Truncation: a file cut anywhere after its header still reads, and yields exactly the
      pairs that lie wholly inside the cut. */
  lemma CutFileKeepsWholePairs(f: Floats, version: nat, tensors: nat, ps: seq<Pair>, n: nat)
    requires PairsOk(ps) && HeaderOk(version, tensors, |ps|)
    requires 24 <= n <= 24 + |EncodePairs(ps)|
    ensures ReadFile(f, (EncodeHeader(version, tensors, |ps|) + EncodePairs(ps))[..n])
         == Ok(Header(version, tensors, |ps|, StoreAll(f, map[], ps[..Whole(ps, n - 24)])))
  {
    hide ReadFile, Collect, EncodePairs, EncodeHeader, StoreAll, Whole;
    var file := EncodeHeader(version, tensors, |ps|) + EncodePairs(ps);
    assert file[..n] == EncodeHeader(version, tensors, |ps|) + EncodePairs(ps)[..n - 24];
    ReadFileOfHeader(f, version, tensors, |ps|, EncodePairs(ps)[..n - 24]);
    CollectCut(f, |ps|, ps, n - 24, map[]);
  }

  /** A file cut inside its header is an error. */
  lemma CutHeaderFails(f: Floats, s: seq<Byte>, n: nat)
    requires n < 24 && n <= |s|
    ensures ReadFile(f, s[..n]).Err?
  {
  }

  /** Bytes that read as a pair are the encoding of that pair. */
  lemma PairOfReads(f: Floats, s: seq<Byte>) returns (p: Pair, rest: seq<Byte>)
    requires !NoPair(f, s)
    ensures PairOk(p) && s == EncodePair(p) + rest
    ensures
      var n := ReadStr(s).used;
      var m := ReadValue(f, s[n..]).used;
      rest == s[n..][m..] && p.key == ReadStr(s).text && Shown(f, p.value) == ReadValue(f, s[n..]).text
  {
    hide ReadStr, ReadByType, Encode, Shown;
    var n := ReadStr(s).used;
    var s' := s[n..];
    StrOfRead(s);
    var v := ValueOfRead(f, FromLe(s'[..4]), s'[4..]);
    LeOfFromLe(s'[..4]);
    p := Pair(ReadStr(s).text, v);
    var m := ReadValue(f, s').used;
    rest := s'[m..];
    assert s'[..m] == s'[..4] + s'[4..][..m - 4];
    assert EncodePair(p) == s[..n] + s'[..m];
  }

  /** The longest readable run of pairs at the front of arbitrary bytes. */
  lemma {:induction false} PairsOfCollect(f: Floats, count: nat, s: seq<Byte>, meta: map<Text, Text>)
    returns (ps: seq<Pair>, rest: seq<Byte>)
    ensures PairsOk(ps) && |ps| <= count && s == EncodePairs(ps) + rest
    ensures Collect(f, count, s, meta) == StoreAll(f, meta, ps)
    ensures |ps| < count ==> NoPair(f, rest)
  {
    hide Collect, ReadStr, ReadValue, EncodePair;
    if count == 0 {
      CollectNone(f, s, meta);
      return [], s;
    }
    CollectOne(f, count, s, meta);
    if NoPair(f, s) {
      ps, rest := [], s;
    } else {
      var p, s' := PairOfReads(f, s);
      var others;
      others, rest := PairsOfCollect(f, count - 1, s', Store(meta, p.key, Shown(f, p.value)));
      ps := [p] + others;
      assert ps[1..] == others;
    }
  }

  /** Nothing readable as a pair stands at the front of s. */
  predicate NoPair(f: Floats, s: seq<Byte>) {
    ReadStr(s).Fail? || ReadValue(f, s[ReadStr(s).used..]).Fail?
  }

  /** On any bytes at all, an accepted file consists of its header, a run of well-formed
      pairs, and a rest; the metadata is what those pairs store, and fewer pairs than
      announced are reported only where no further pair can be read. */
  lemma AnyAcceptedFile(f: Floats, s: seq<Byte>) returns (ps: seq<Pair>, rest: seq<Byte>)
    requires ReadFile(f, s).Ok?
    ensures PairsOk(ps) && 24 <= |s| && s[24..] == EncodePairs(ps) + rest
    ensures
      var h := ReadFile(f, s).value;
      && HeaderOk(h.version, h.tensorCount, h.kvCount)
      && s[..24] == EncodeHeader(h.version, h.tensorCount, h.kvCount)
      && h.metadata == StoreAll(f, map[], ps)
      && |ps| <= h.kvCount && (|ps| < h.kvCount ==> NoPair(f, rest))
  {
    var h := ReadFile(f, s).value;
    LeOfFromLe(s[4..8]);
    LeOfFromLe(s[8..16]);
    LeOfFromLe(s[16..24]);
    assert s[..24] == s[..4] + s[4..8] + s[8..16] + s[16..24];
    ps, rest := PairsOfCollect(f, h.kvCount, s[24..], map[]);
  }

  // ----- The map that is reported -----

  /** Pair i is the last one of its key with something to show. */
  predicate LastShown(f: Floats, ps: seq<Pair>, i: int, key: Text) {
    && 0 <= i < |ps| && ps[i].key == key && Shown(f, ps[i].value) != []
    && forall j :: i < j < |ps| && ps[j].key == key ==> Shown(f, ps[j].value) == []
  }

  lemma {:induction false} StoreAllSplit(f: Floats, meta: map<Text, Text>, ps: seq<Pair>)
    requires ps != []
    ensures
      var last := ps[|ps| - 1];
      StoreAll(f, meta, ps) == Store(StoreAll(f, meta, ps[..|ps| - 1]), last.key, Shown(f, last.value))
    decreases |ps|
  {
    var before := ps[..|ps| - 1];
    if |ps| == 1 {
      assert before == [] && ps[1..] == [];
    } else {
      StoreAllSplit(f, Store(meta, ps[0].key, Shown(f, ps[0].value)), ps[1..]);
      assert ps[1..][..|ps| - 2] == before[1..];
    }
  }

  /** A key is reported exactly when some pair of that key shows a text, and then with the
      text of the last such pair: arrays and empty strings leave no trace. */
  lemma {:induction false} LastShownWins(f: Floats, ps: seq<Pair>, key: Text)
    ensures key in StoreAll(f, map[], ps) <==> exists i :: LastShown(f, ps, i, key)
    ensures forall i :: LastShown(f, ps, i, key) ==>
              key in StoreAll(f, map[], ps) && StoreAll(f, map[], ps)[key] == Shown(f, ps[i].value)
  {
    hide Shown;
    if ps != [] {
      var n := |ps| - 1;
      var before := ps[..n];
      StoreAllSplit(f, map[], ps);
      LastShownWins(f, before, key);
      if ps[n].key == key && Shown(f, ps[n].value) != [] {
        assert LastShown(f, ps, n, key);
      } else {
        forall i ensures LastShown(f, ps, i, key) <==> LastShown(f, before, i, key) {
          if LastShown(f, before, i, key) {
            forall j | i < j < |ps| && ps[j].key == key ensures Shown(f, ps[j].value) == [] {
              if j < n {
                assert before[j].key == key;
              }
            }
          }
        }
      }
    }
  }
}
