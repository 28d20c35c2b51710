/** cfuhash_bencode_strings, and a decoder for the strings and dictionaries of
    BEP 3, section "bencoding". */
module Bencoding {
  import opened Options
  import opened Buckets
  import opened Decimals
  import opened StringBuffers
  import HashTables

  // A key with its string; NULL data is None.
  type Pair = Entry<CString, Option<CString>>

  // NULL is printed as the empty string.
  function Text(data: Option<CString>): CString {
    if data.Some? then data.value else ""
  }

  function LengthPrefix(s: CString): CString {
    Digits(|s|) + ":"
  }

  function EncodeString(s: CString): CString {
    LengthPrefix(s) + s
  }

  function EncodePairs(es: seq<Pair>): CString {
    if es == [] then ""
    else EncodePairs(es[..|es| - 1]) + EncodeString(es[|es| - 1].key) + EncodeString(Text(es[|es| - 1].data))
  }

  // The text of one pair: each string after its length in decimal and a colon.
  lemma EncodeOne(e: Pair)
    ensures var k, v: CString := e.key, if e.data.Some? then e.data.value else "";
            EncodePairs([e]) == Digits(|k|) + ":" + k + (Digits(|v|) + ":" + v)
  {
    assert [e][..0] == [];
    assert EncodePairs([e]) == "" + EncodeString(e.key) + EncodeString(Text(e.data));
  }

  // The text of several pairs is one after the other.
  lemma {:induction false} EncodeInOrder(es: seq<Pair>, fs: seq<Pair>)
    ensures EncodePairs(es + fs) == EncodePairs(es) + EncodePairs(fs)
  {
    hide EncodePairs, EncodeString, Text;
    if fs == [] {
      assert es + fs == es;
      EncodeEmpty();
    } else {
      var front, f := fs[..|fs| - 1], fs[|fs| - 1];
      assert (es + fs)[..|es + fs| - 1] == es + front && (es + fs)[|es + fs| - 1] == f;
      EncodeInOrder(es, front);
      PairsSnoc(fs);
      PairsSnoc(es + fs);
      Associate(EncodePairs(es), EncodePairs(front), EncodeString(f.key), EncodeString(Text(f.data)));
    }
  }

  lemma Associate<T>(a: seq<T>, b: seq<T>, c: seq<T>, d: seq<T>)
    ensures a + b + c + d == a + (b + c + d)
  {
  }

  lemma EncodeEmpty()
    ensures EncodePairs([]) == ""
  {
  }

  // ----- Decoding -----

  // The number of leading digits of s.
  function DigitCount(s: string): (n: nat)
    ensures n <= |s| && forall i :: 0 <= i < n ==> IsDigit(s[i])
    ensures n < |s| ==> !IsDigit(s[n])
  {
    if s == "" || !IsDigit(s[0]) then 0 else 1 + DigitCount(s[1..])
  }

  // A length, a colon, that many characters; and what follows.
  function DecodeString(s: string): (r: Option<(string, string)>)
    ensures r.Some? ==> |r.value.1| < |s|
  {
    var n := DigitCount(s);
    if n == 0 || n == |s| || s[n] != ':' then None
    else
      var len, rest := Value(s[..n]), s[n + 1..];
      if len > |rest| then None else Some((rest[..len], rest[len..]))
  }

  // Key and value strings in turn, up to the closing "e" that ends the text.
  function DecodePairs(s: string): Option<seq<(string, string)>>
    decreases |s|
  {
    if s == "e" then Some([])
    else
      match DecodeString(s)
      case None => None
      case Some((key, rest)) =>
        match DecodeString(rest)
        case None => None
        case Some((val, rest')) =>
          match DecodePairs(rest')
          case None => None
          case Some(ps) => Some([(key, val)] + ps)
  }

  function DecodeDictionary(s: string): Option<map<string, string>> {
    if s == "" || s[0] != 'd' then None
    else
      match DecodePairs(s[1..])
      case None => None
      case Some(ps) => Some(PairsMap(ps))
  }

  function PairsMap(ps: seq<(string, string)>): map<string, string> {
    if ps == [] then map[] else PairsMap(ps[..|ps| - 1])[ps[|ps| - 1].0 := ps[|ps| - 1].1]
  }

  // ----- Round trip -----

  lemma {:induction false} DigitCountOf(d: string, rest: string)
    requires (forall i :: 0 <= i < |d| ==> IsDigit(d[i])) && (rest == "" || !IsDigit(rest[0]))
    ensures DigitCount(d + rest) == |d|
  {
    if d == "" {
      assert d + rest == rest;
    } else {
      assert (d + rest)[1..] == d[1..] + rest;
      DigitCountOf(d[1..], rest);
    }
  }

  lemma DecodeEncodeString(s: CString, rest: string)
    ensures DecodeString(EncodeString(s) + rest) == Some((s, rest))
  {
    var d, tail := Digits(|s|), ":" + s + rest;
    var t := EncodeString(s) + rest;
    assert t == d + tail;
    DigitCountOf(d, tail);
    ValueOfDigits(|s|);
    assert t[..|d|] == d && t[|d|] == ':' && t[|d| + 1..] == s + rest;
    assert (s + rest)[..|s|] == s && (s + rest)[|s|..] == rest;
  }

  function PairsOf(es: seq<Pair>): seq<(string, string)> {
    seq(|es|, i requires 0 <= i < |es| => (es[i].key, Text(es[i].data)))
  }

  lemma DecodeOnePair(key: CString, val: CString, rest: string, ps: seq<(string, string)>)
    requires DecodePairs(rest) == Some(ps)
    ensures DecodePairs(EncodeString(key) + (EncodeString(val) + rest)) == Some([(key, val)] + ps)
  {
    DecodeEncodeString(key, EncodeString(val) + rest);
    DecodeEncodeString(val, rest);
    assert DecodeString("e").None?;
  }

  lemma {:induction false} DecodeEncodePairs(es: seq<Pair>, rest: string, ps: seq<(string, string)>)
    requires DecodePairs(rest) == Some(ps)
    ensures DecodePairs(EncodePairs(es) + rest) == Some(PairsOf(es) + ps)
    decreases |es|
  {
    hide DecodePairs, EncodeString, Text;
    if es == [] {
      assert EncodePairs(es) + rest == rest && PairsOf(es) + ps == ps;
    } else {
      var front, e := es[..|es| - 1], es[|es| - 1];
      DecodeOnePair(e.key, Text(e.data), rest, ps);
      var k, v, p := EncodeString(e.key), EncodeString(Text(e.data)), [(e.key, Text(e.data))];
      PairsSnoc(es);
      hide EncodePairs, PairsOf;
      DecodeEncodePairs(front, k + (v + rest), p + ps);
      Regroup(EncodePairs(front), k, v, rest);
      assert PairsOf(front) + p + ps == PairsOf(front) + (p + ps);
    }
  }

  lemma PairsSnoc(es: seq<Pair>)
    requires es != []
    ensures var front, e := es[..|es| - 1], es[|es| - 1];
            && EncodePairs(es) == EncodePairs(front) + EncodeString(e.key) + EncodeString(Text(e.data))
            && PairsOf(es) == PairsOf(front) + [(e.key, Text(e.data))]
  {
  }

  lemma Regroup<T>(a: seq<T>, b: seq<T>, c: seq<T>, d: seq<T>)
    ensures a + b + c + d == a + (b + (c + d))
  {
  }

  lemma {:induction false} PairsMapOf(es: seq<Pair>)
    requires DistinctKeys(es)
    ensures forall s :: s in PairsMap(PairsOf(es)) <==> exists i :: 0 <= i < |es| && es[i].key == s
    ensures forall i :: 0 <= i < |es| ==> PairsMap(PairsOf(es))[es[i].key] == Text(es[i].data)
  {
    if es == [] {
    } else {
      var front := es[..|es| - 1];
      PairsMapOf(front);
      assert PairsOf(es)[..|es| - 1] == PairsOf(front);
      assert forall i :: 0 <= i < |front| ==> front[i] == es[i];
    }
  }

  // The table's map with NULL read as the empty string.
  ghost function Strings(m: map<CString, Option<CString>>): map<string, string> {
    map s: string | s in m.Keys :: Text(m[s])
  }

  lemma RoundTrip(hash: CString -> nat, t: Table<CString, Option<CString>>)
    requires WF(hash, t)
    ensures DecodeDictionary("d" + EncodePairs(Items(t.chains)) + "e") == Some(Strings(Contents(hash, t)))
  {
    assert 0 < |t.chains|;
    hide WF, Contents, EncodePairs, DecodePairs, PairsMap, Items, Strings, PairsOf;
    var es, m := Items(t.chains), Contents(hash, t);
    var s := "d" + EncodePairs(es) + "e";
    assert s[1..] == EncodePairs(es) + "e";
    EndOfPairs();
    DecodeEncodePairs(es, "e", []);
    assert PairsOf(es) + [] == PairsOf(es);
    HashTables.ItemsAreMap(hash, t, es, m);
    StringsOf(es, m);
  }

  lemma EndOfPairs()
    ensures DecodePairs("e") == Some([])
  {
  }

  lemma StringsOf(es: seq<Pair>, m: map<CString, Option<CString>>)
    requires DistinctKeys(es)
    requires forall i :: 0 <= i < |es| ==> es[i].key in m && m[es[i].key] == es[i].data
    requires forall k :: k in m ==> exists i :: 0 <= i < |es| && es[i].key == k
    ensures PairsMap(PairsOf(es)) == Strings(m)
  {
    hide PairsMap, PairsOf, DistinctKeys;
    PairsMapOf(es);
    assert PairsMap(PairsOf(es)).Keys == Strings(m).Keys;
  }

  // The four appends for one key.
  method AppendPair(buf: StringBuffer, key: CString, val: Option<CString>)
    requires buf.Valid()
    modifies buf, buf.str
    ensures buf.Valid() && fresh(buf.Repr() - old(buf.Repr()))
    ensures buf.buf.text == Some(old(buf.buf).Contents() + EncodeString(key) + EncodeString(Text(val)))
  {
    hide StringBuffer.Valid, Appended, Digits;
    ghost var t, p, q := buf.buf.Contents(), LengthPrefix(key), LengthPrefix(Text(val));
    buf.Append(Some(LengthPrefix(key)));
    buf.Append(Some(key));
    buf.Append(Some(LengthPrefix(Text(val))));
    buf.Append(val);
    assert t + p + key + q + Text(val) == t + (p + key) + (q + Text(val));
    assert t + p + key + q + "" == t + p + key + q;
  }

  // The data for the i-th key.
  method DataOf(ht: HashTables.HashTable<CString, Option<CString>>, keys: seq<CString>, ghost es: seq<Pair>, i: nat)
    returns (val: Option<CString>)
    requires ht.Valid() && es == Items(ht.table.chains) && HashTables.KeysOf(keys, es) && i < |keys|
    ensures i < |es| && es[i].key == keys[i] && es[i].data == val
  {
    hide HashTables.HashTable.Valid, HashTables.HashTable.Map, HashTables.KeysOf, Items;
    HashTables.KeyLookup(ht, keys, es, i);
    var found := ht.GetData(keys[i]);
    val := if found.Some? then found.value else None;
  }

  // cfuhash_bencode_strings
  method BencodeStrings(ht: HashTables.HashTable<CString, Option<CString>>) returns (r: CString)
    requires ht.Valid()
    ensures r == "d" + EncodePairs(Items(ht.table.chains)) + "e"
    ensures DecodeDictionary(r) == Some(Strings(ht.Map()))
  {
    hide HashTables.HashTable.Valid, HashTables.HashTable.Map, StringBuffer.Valid, Appended;
    hide EncodePairs, EncodeString, Text, Items, WF, DecodeDictionary, Strings, Contents, HashTables.KeysOf;
    ghost var es := Items(ht.table.chains);
    var bencoded := new StringBuffer(16);
    bencoded.Append(Some("d"));
    var keys := ht.KeysData();
    EncodeNone(es);
    var i := 0;
    while i < |keys|
      invariant i <= |keys|
      invariant bencoded.Valid() && fresh(bencoded.Repr())
      invariant bencoded.buf.text == Some("d" + EncodePairs(es[..i]))
    {
      EncodeOneMore(es, i);
      var val := DataOf(ht, keys, es, i);
      AppendPair(bencoded, keys[i], val);
      i := i + 1;
    }
    bencoded.Append(Some("e"));
    var copy := bencoded.GetBufferCopy();
    r := copy.value;
    assert es[..i] == es;
    TableRoundTrip(ht);
  }

  lemma TableRoundTrip(ht: HashTables.HashTable<CString, Option<CString>>)
    requires ht.Valid()
    ensures DecodeDictionary("d" + EncodePairs(Items(ht.table.chains)) + "e") == Some(Strings(ht.Map()))
  {
    ht.Represented();
    RoundTrip(ht.hash, ht.table);
  }

  lemma EncodeNone(es: seq<Pair>)
    ensures "d" + EncodePairs(es[..0]) == "" + "d"
  {
  }

  lemma EncodeOneMore(es: seq<Pair>, i: nat)
    requires i < |es|
    ensures "d" + EncodePairs(es[..i + 1]) ==
            "d" + EncodePairs(es[..i]) + EncodeString(es[i].key) + EncodeString(Text(es[i].data))
  {
    assert es[..i + 1][..i] == es[..i];
    PairsSnoc(es[..i + 1]);
    hide EncodePairs, EncodeString, Text;
    assert "d" + (EncodePairs(es[..i]) + EncodeString(es[i].key) + EncodeString(Text(es[i].data)))
        == "d" + EncodePairs(es[..i]) + EncodeString(es[i].key) + EncodeString(Text(es[i].data));
  }
}
