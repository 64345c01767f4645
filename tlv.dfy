/** One-shot part of the BER-style TLV codec (services/lib/kali/COMMON/TLV.py):
    the length encoder `calc_len`, TLV values built by the constructor, their
    dumps and comparison, the `TLVs` collection and the list decoder
    `APDU2TLV`.  Tags follow ITU-T X.690 section 8.1.2.4 (a first byte whose
    low five bits are all set is continued by bytes with the high bit set);
    lengths follow sections 8.1.3.4 (short form) and 8.1.3.5 (long form). */
module Tlv {
  import opened Wrappers
  import opened Bytes

  // ---------------------------------------------------------------------------
  // Length octets

  /** `TLV.calc_len`: the length octets for `value`.  Short form up to 127,
      otherwise `0x80 | n` followed by the n-byte minimal big-endian length;
      ValueError when n exceeds 127. */
  function CalcLen(value: Bytes): (r: Result<Bytes, Exc>)
    ensures |value| <= 127 ==> r == Ok([|value|])
    ensures |value| > 127 ==> (r.Ok? <==> ByteLength(|value|) <= 127)
    ensures r.Err? ==> r.error == ValueError
    ensures r.Ok? && |value| > 127 ==>
      && |r.value| >= 2 && r.value[0] == 0x80 + (|r.value| - 1)
      && r.value[1] != 0 && FromBE(r.value[1..]) == |value|
  {
    var length := |value|;
    if length <= 127 then
      ToBESingle(length);
      Ok(ToBE(length, 1))
    else
      var nbytes := BitLength(length) / 8 + (if BitLength(length) % 8 > 0 then 1 else 0);
      if nbytes > 127 then Err(ValueError)
      else
        // (0x80 | nbytes) == 0x80 + nbytes because nbytes < 128
        LongLength(length, nbytes);
        Ok(ToBE(0x80 + nbytes, 1) + ToBE(length, nbytes))
  }

  lemma ToBESingle(n: nat)
    requires n < 256
    ensures ToBE(n, 1) == [n]
  {
  }

  lemma LongLength(length: nat, nbytes: nat)
    requires length > 127 && nbytes == ByteLength(length) && nbytes <= 127
    ensures var r := ToBE(0x80 + nbytes, 1) + ToBE(length, nbytes);
      && |r| >= 2 && r[0] == 0x80 + (|r| - 1) && r[1] != 0 && FromBE(r[1..]) == length
  {
    ByteLengthBounds(length);
    ToBESingle(0x80 + nbytes);
    FromToBE(length, nbytes);
    LeadingByte(length, nbytes);
    var r := ToBE(0x80 + nbytes, 1) + ToBE(length, nbytes);
    assert r[1..] == ToBE(length, nbytes);
  }

  /** The first byte of a big-endian form that is not longer than needed is
      not zero. */
  lemma {:induction false} LeadingByte(n: nat, k: nat)
    requires k >= 1 && Pow256(k - 1) <= n < Pow256(k)
    ensures ToBE(n, k)[0] != 0
  {
    if k > 1 {
      assert Pow256(k - 2) <= n / 256 < Pow256(k - 1);
      LeadingByte(n / 256, k - 1);
      assert ToBE(n, k)[0] == ToBE(n / 256, k - 1)[0];
    }
  }

  /** Reference reading of BER length octets (X.690 sections 8.1.3.4-8.1.3.5):
      the number of value bytes they announce. */
  function DecodeLen(l: Bytes): Option<nat>
  {
    if |l| == 0 then None
    else if l[0] < 0x80 then (if |l| == 1 then Some(l[0]) else None)
    else if |l| == 1 + (l[0] - 0x80) then Some(FromBE(l[1..]))
    else None
  }

  /** Whatever `calc_len` produces announces exactly the length of the value. */
  lemma CalcLenDecodes(value: Bytes)
    requires CalcLen(value).Ok?
    ensures DecodeLen(CalcLen(value).value) == Some(|value|)
  {
  }

  // ---------------------------------------------------------------------------
  // TLV values

  /** The three byte fields of a `TLV` object. */
  datatype TlvFields = TlvFields(tag: Bytes, len: Bytes, val: Bytes)

  const EmptyTlv := TlvFields([], [], [])

  /** `TLV(_tag, _val, _len)`: `setTLV` runs only when both tag and value are
      given; the length is then `_len` or, when absent, `calc_len(_val)`. */
  function NewTlv(tag: Option<Bytes>, val: Option<Bytes>, len: Option<Bytes>): (r: Result<TlvFields, Exc>)
    ensures (tag.None? || val.None?) ==> r == Ok(EmptyTlv)
    ensures tag.Some? && val.Some? && len.Some? ==> r == Ok(TlvFields(tag.value, len.value, val.value))
    ensures tag.Some? && val.Some? && len.None? ==>
      match CalcLen(val.value)
      case Ok(l) => r == Ok(TlvFields(tag.value, l, val.value))
      case Err(e) => r == Err(e)
  {
    if tag.Some? && val.Some? then
      if len.Some? then Ok(TlvFields(tag.value, len.value, val.value))
      else match CalcLen(val.value)
        case Ok(l) => Ok(TlvFields(tag.value, l, val.value))
        case Err(e) => Err(e)
    else Ok(EmptyTlv)
  }

  /** `TLV.hexdump` (the fields are never None in this model): the tag, the
      length field and the value, each whole and in that order. */
  function HexDump(t: TlvFields): (r: Bytes)
    ensures |r| == |t.tag| + |t.len| + |t.val|
  {
    t.tag + t.len + t.val
  }

  /** The dump splits back into its three fields at the lengths of the tag
      and of the length field. */
  lemma HexDumpFields(t: TlvFields)
    ensures HexDump(t)[..|t.tag|] == t.tag
    ensures HexDump(t)[|t.tag|..|t.tag| + |t.len|] == t.len
    ensures HexDump(t)[|t.tag| + |t.len|..] == t.val
  {
  }

  /** `TLV.getTLV`, which builds the same bytes as `hexdump`. */
  function GetTlv(t: TlvFields): Bytes
  {
    HexDump(t)
  }

  /** `TLV.getSize`: the size of the whole encoding. */
  function GetSize(t: TlvFields): (r: nat)
    ensures r == |HexDump(t)|
  {
    |t.tag| + |t.len| + |t.val|
  }

  /** A TLV built from a tag and a value dumps as tag, announced length and
      value, `getTLV` agrees with `hexdump`, and `getSize` is the dump's size. */
  lemma NewTlvDump(tag: Bytes, val: Bytes)
    requires NewTlv(Some(tag), Some(val), None).Ok?
    ensures var t := NewTlv(Some(tag), Some(val), None).value;
      && HexDump(t) == GetTlv(t)
      && HexDump(t)[..|tag|] == tag
      && HexDump(t)[|HexDump(t)| - |val|..] == val
      && DecodeLen(HexDump(t)[|tag|..|HexDump(t)| - |val|]) == Some(|val|)
      && GetSize(t) == |HexDump(t)|
  {
    var t := NewTlv(Some(tag), Some(val), None).value;
    CalcLenDecodes(val);
    assert HexDump(t)[|tag|..|HexDump(t)| - |val|] == t.len;
  }

  /** `TLV.compare_tlv`: TypeError unless given a TLV; otherwise whether the
      three fields agree. */
  function CompareTlv(a: TlvFields, b: Dyn<TlvFields>): (r: Result<bool, Exc>)
    ensures b.Other? <==> r == Err(TypeError)
    ensures b.Is? ==> r.Ok? && (r.value <==> a == b.v)
  {
    match b
    case Other => Err(TypeError)
    case Is(t) => Ok(t.tag == a.tag && t.len == a.len && t.val == a.val)
  }

  // ---------------------------------------------------------------------------
  // TLVs: an ordered collection

  /** First element of `s` whose tag is `tag`. */
  function FirstWithTag(s: seq<TlvFields>, tag: Bytes): (r: Option<TlvFields>)
    ensures r.Some? ==> exists i :: 0 <= i < |s| && s[i] == r.value && r.value.tag == tag
                                    && forall j :: 0 <= j < i ==> s[j].tag != tag
    ensures r.None? <==> forall i :: 0 <= i < |s| ==> s[i].tag != tag
  {
    if s == [] then None
    else if s[0].tag == tag then Some(s[0])
    else
      var r := FirstWithTag(s[1..], tag);
      if r.Some? then
        var i :| 0 <= i < |s[1..]| && s[1..][i] == r.value && r.value.tag == tag
                 && forall j :: 0 <= j < i ==> s[1..][j].tag != tag;
        assert s[i + 1] == r.value;
        r
      else r
  }

  /** Loop of `TLVs.TLVisPresent` over typed elements. */
  function Present(s: seq<TlvFields>, t: TlvFields): (r: bool)
  {
    if s == [] then false else s[0] == t || Present(s[1..], t)
  }

  /** Loop of `TLVs.compare_tlvs`: every TLV of `theirs` is present in `mine`,
      scanned in order with an early `False`. */
  function Covers(mine: seq<TlvFields>, theirs: seq<TlvFields>): bool
  {
    if theirs == [] then true else Present(mine, theirs[0]) && Covers(mine, theirs[1..])
  }

  /** `TLVs.compare_tlvs` on typed collections: with `identity` the other
      collection is asked the same question about this one. */
  function CompareSeqs(mine: seq<TlvFields>, theirs: seq<TlvFields>, identity: bool): bool
    decreases if identity then 1 else 0
  {
    if !Covers(mine, theirs) then false
    else if identity then CompareSeqs(theirs, mine, false)
    else true
  }

  lemma {:induction false} PresentIsMembership(s: seq<TlvFields>, t: TlvFields)
    ensures Present(s, t) <==> t in s
  {
    if s != [] {
      PresentIsMembership(s[1..], t);
      assert t in s <==> s[0] == t || t in s[1..];
    }
  }

  lemma {:induction false} CoversIsInclusion(mine: seq<TlvFields>, theirs: seq<TlvFields>)
    ensures Covers(mine, theirs) <==> (forall t :: t in theirs ==> t in mine)
  {
    if theirs != [] {
      PresentIsMembership(mine, theirs[0]);
      CoversIsInclusion(mine, theirs[1..]);
      assert forall t :: t in theirs <==> t == theirs[0] || t in theirs[1..];
    }
  }

  /** `compare_tlvs` is inclusion of `theirs` in `mine`, and with `identity`
      inclusion both ways (the same TLVs, ignoring order and repetition). */
  lemma CompareSeqsMeaning(mine: seq<TlvFields>, theirs: seq<TlvFields>, identity: bool)
    ensures CompareSeqs(mine, theirs, identity) <==>
      (forall t :: t in theirs ==> t in mine) && (identity ==> forall t :: t in mine ==> t in theirs)
  {
    CoversIsInclusion(mine, theirs);
    CoversIsInclusion(theirs, mine);
  }

  /** Every element of the list is a TLV object. */
  predicate AllTlvs(xs: seq<Dyn<TlvFields>>)
  {
    forall i :: 0 <= i < |xs| ==> xs[i].Is?
  }

  /** The TLVs of a list whose elements are all TLVs, in order. */
  function TlvValues(xs: seq<Dyn<TlvFields>>): (r: seq<TlvFields>)
    requires AllTlvs(xs)
    ensures |r| == |xs| && forall i :: 0 <= i < |xs| ==> xs[i] == Is(r[i])
  {
    seq(|xs|, i requires 0 <= i < |xs| => xs[i].v)
  }

  /** `TLVs`: the list of TLVs, kept in insertion order. */
  class TlvList {
    var items: seq<TlvFields>

    /** The collection a checked list of TLVs gives; `Create` is the whole
        `TLVs(TLVlist)`. */
    constructor (initial: seq<TlvFields>)
      ensures items == initial
    {
      items := initial;
    }

    /** `TLVs(TLVlist)`: `None` or any other non-list starts empty; a list is
        checked element by element, and one element that is not a TLV raises
        TypeError, so no collection is made. */
    static method Create(initial: Dyn<seq<Dyn<TlvFields>>>) returns (l: TlvList?, err: Option<Exc>)
      ensures initial.Other? ==> err.None? && l != null && fresh(l) && l.items == []
      ensures initial.Is? && !AllTlvs(initial.v) ==> err == Some(TypeError) && l == null
      ensures initial.Is? && AllTlvs(initial.v) ==>
        err.None? && l != null && fresh(l) && l.items == TlvValues(initial.v)
    {
      if initial.Other? {
        l := new TlvList([]);
        return l, None;
      }
      var xs := initial.v;
      var i := 0;
      while i < |xs|
        invariant 0 <= i <= |xs|
        invariant AllTlvs(xs[..i])
      {
        if xs[i].Other? {
          assert xs[i] in xs;
          return null, Some(TypeError);
        }
        assert xs[..i + 1] == xs[..i] + [xs[i]];
        i := i + 1;
      }
      assert xs[..i] == xs;
      l := new TlvList(TlvValues(xs));
      return l, None;
    }

    /** `TLVs.addTLV`: appends, or TypeError for a non-TLV. */
    method AddTlv(t: Dyn<TlvFields>) returns (r: Result<(), Exc>)
      modifies this
      ensures t.Other? ==> r == Err(TypeError) && items == old(items)
      ensures t.Is? ==> r == Ok(()) && items == old(items) + [t.v]
    {
      if t.Other? {
        return Err(TypeError);
      }
      items := items + [t.v];
      return Ok(());
    }

    /** `TLVs.get_TLV`: the first TLV with the tag, or None. */
    function GetTlv(tag: Bytes): (r: Option<TlvFields>)
      reads this
      ensures r.Some? ==> r.value in items && r.value.tag == tag
      ensures r.None? <==> forall t :: t in items ==> t.tag != tag
    {
      FirstWithTag(items, tag)
    }

    /** `TLVs.TLVisPresent`: `compare_tlv` is only reached (and only raises)
        when the list is not empty. */
    function TlvIsPresent(t: Dyn<TlvFields>): (r: Result<bool, Exc>)
      reads this
      ensures items == [] ==> r == Ok(false)
      ensures items != [] && t.Other? ==> r == Err(TypeError)
      ensures t.Is? ==> r == Ok(t.v in items)
    {
      if items == [] then Ok(false)
      else match t
        case Other => Err(TypeError)
        case Is(v) =>
          PresentIsMembership(items, v);
          Ok(Present(items, v))
    }

    /** `TLVs.compare_tlvs`: TypeError unless given a TLVs object. */
    function CompareTlvs(other: Dyn<TlvList>, identity: bool): (r: Result<bool, Exc>)
      reads this, if other.Is? then {other.v} else {}
      ensures other.Other? ==> r == Err(TypeError)
      ensures other.Is? ==> r.Ok?
      ensures other.Is? && r.Ok? ==>
        (r.value <==> (forall t :: t in other.v.items ==> t in items)
                      && (identity ==> forall t :: t in items ==> t in other.v.items))
    {
      match other
      case Other => Err(TypeError)
      case Is(o) =>
        CompareSeqsMeaning(items, o.items, identity);
        Ok(CompareSeqs(items, o.items, identity))
    }
  }

  // ---------------------------------------------------------------------------
  // APDU2TLV

  /** Inner loop of `APDU2TLV`: the first index at or after `lt` whose byte has
      the high bit clear; IndexError when the buffer ends first. */
  function SkipHigh(s: Bytes, lt: nat): (r: Result<nat, Exc>)
    decreases |s| - lt
    ensures r.Ok? ==> lt <= r.value < |s| && s[r.value] < 0x80
    ensures r.Err? ==> r.error == IndexError
  {
    if lt >= |s| then Err(IndexError)
    else if s[lt] >= 0x80 then SkipHigh(s, lt + 1)
    else Ok(lt)
  }

  /** `SkipHigh` stops at the first byte with the high bit clear, and fails
      exactly when there is none. */
  lemma {:induction false} SkipHighSpec(s: Bytes, lt: nat)
    ensures SkipHigh(s, lt).Ok? ==> forall k :: lt <= k < SkipHigh(s, lt).value ==> s[k] >= 0x80
    ensures SkipHigh(s, lt).Err? <==> (forall k :: lt <= k < |s| ==> s[k] >= 0x80)
    decreases |s| - lt
  {
    if lt < |s| && s[lt] >= 0x80 {
      SkipHighSpec(s, lt + 1);
    }
  }

  /** End (exclusive) of the tag that starts at `i`. */
  function TagEnd(s: Bytes, i: nat): (r: Result<nat, Exc>)
    requires i < |s|
    ensures r.Ok? ==> i < r.value <= |s|
    ensures s[i] % 32 != 31 ==> r == Ok(i + 1)
  {
    if s[i] % 32 == 31 then
      match SkipHigh(s, i + 1)
      case Ok(k) => Ok(k + 1)
      case Err(e) => Err(e)
    else Ok(i + 1)
  }

  /** Length part of one `APDU2TLV` iteration, for a length byte at `lt`:
      the length field `L`, the index of the value and the value's length.
      The short form keeps `b & 0x7F` in minimal big-endian form (so a zero
      length gives an empty `L`); the long form keeps the `0x8N` byte in `L`. */
  function LenAt(s: Bytes, lt: nat): (r: (Bytes, nat, nat))
    requires lt < |s|
    ensures r.1 > lt
    ensures s[lt] < 0x80 ==> FromBE(r.0) == s[lt] && r.1 == lt + 1 && r.2 == s[lt]
  {
    // `b & 0x7F` is `b` below 0x80 and `b - 0x80` from 0x80 on
    if s[lt] < 0x80 then
      var l := ShortLen(s[lt]);
      ShortLenValue(s[lt]);
      (l, lt + 1, FromBE(l))
    else
      var n := s[lt] - 0x80;
      var l := Slice(s, lt, lt + 1 + n);
      (l, lt + 1 + n, FromBE(l[1..]))
  }

  /** The short-form `L`: `(b & 0x7F).to_bytes(ceil(bit_length / 8), 'big')`
      for a length byte `b` below 0x80, which is empty for zero and the byte
      itself otherwise (see `ShortLenIsMinimal`). */
  function ShortLen(b: Byte): Bytes
    requires b < 0x80
  {
    if b == 0 then [] else [b]
  }

  lemma ShortLenValue(b: Byte)
    requires b < 0x80
    ensures FromBE(ShortLen(b)) == b
  {
    if b > 0 {
      FromBESingle(b);
    }
  }

  /** `ShortLen` is the minimal big-endian form the source computes. */
  lemma ShortLenIsMinimal(b: Byte)
    requires b < 0x80
    ensures ShortLen(b) == MinimalBE(b)
  {
    MinimalBESmall(b);
  }

  /** One iteration of the `APDU2TLV` loop at index `i`: the `[T, L, V]`
      triple and the next index, which advances by `int(L)` (for a long form
      `L` still holds its `0x8N` byte). */
  function ReadOne(s: Bytes, i: nat): (r: Result<(TlvFields, nat), Exc>)
    requires i < |s|
    ensures r.Ok? ==> r.value.1 > i
  {
    match TagEnd(s, i)
    case Err(e) => Err(e)
    case Ok(lt) =>
      if lt >= |s| then Err(IndexError)
      else
        var p := LenAt(s, lt);
        Ok((TlvFields(s[i..lt], p.0, Slice(s, p.1, p.1 + p.2)), p.1 + FromBE(p.0)))
  }

  /** The `APDU2TLV` loop from index `i` to the end of the buffer. */
  function ScanFrom(s: Bytes, i: nat): Result<seq<TlvFields>, Exc>
    decreases if i < |s| then |s| - i else 0
  {
    if i >= |s| then Ok([])
    else match ReadOne(s, i)
      case Err(e) => Err(e)
      case Ok(p) => Prepend([p.0], ScanFrom(s, p.1))
  }

  function Prepend(acc: seq<TlvFields>, r: Result<seq<TlvFields>, Exc>): Result<seq<TlvFields>, Exc>
  {
    match r
    case Ok(rest) => Ok(acc + rest)
    case Err(e) => Err(e)
  }

  /** `APDU2TLV(APDUstr, cmdLen)` as a function of its input. */
  function Apdu2TlvSpec(apdu: Bytes, cmdLen: nat): (r: Result<seq<TlvFields>, Exc>)
    ensures cmdLen >= |apdu| ==> r == Ok([])
  {
    ScanFrom(Slice(apdu, cmdLen, |apdu|), 0)
  }

  lemma PrependNil(r: Result<seq<TlvFields>, Exc>)
    ensures Prepend([], r) == r
  {
    if r.Ok? {
      assert [] + r.value == r.value;
    }
  }

  lemma PrependAssoc(a: seq<TlvFields>, b: seq<TlvFields>, r: Result<seq<TlvFields>, Exc>)
    ensures Prepend(a, Prepend(b, r)) == Prepend(a + b, r)
  {
    if r.Ok? {
      assert a + (b + r.value) == (a + b) + r.value;
    }
  }

  /** Tag part of the `APDU2TLV` loop body: the inner `while` that walks the
      continuation bytes of a multi-byte tag. */
  method ReadTag(s: Bytes, i: nat) returns (r: Result<nat, Exc>)
    requires i < |s|
    ensures r == TagEnd(s, i)
  {
    var lt := i + 1;
    if s[i] % 32 == 31 {
      while lt < |s| && s[lt] >= 0x80
        invariant i + 1 <= lt <= |s|
        invariant SkipHigh(s, i + 1) == SkipHigh(s, lt)
      {
        lt := lt + 1;
      }
      if lt >= |s| {
        return Err(IndexError);
      }
      lt := lt + 1;
    }
    return Ok(lt);
  }

  /** One pass of the `APDU2TLV` loop body, starting at index `i`. */
  method ReadAt(s: Bytes, i: nat) returns (r: Result<(TlvFields, nat), Exc>)
    requires i < |s|
    ensures r == ReadOne(s, i)
  {
    var tagEnd := ReadTag(s, i);
    if tagEnd.Err? {
      return Err(tagEnd.error);
    }
    var lt := tagEnd.value;
    if lt >= |s| {
      return Err(IndexError);
    }
    var (l, j, rl) := LenAt(s, lt);
    var f := TlvFields(s[i..lt], l, Slice(s, j, j + rl));
    var next: nat := j + FromBE(l);
    assert ReadOne(s, i) == Ok((f, next));
    return Ok((f, next));
  }

  /** `APDU2TLV`: drops the first `cmdLen` bytes and splits the rest into
      `[T, L, V]` triples (IndexError where the buffer ends inside a tag or
      before a length byte). */
  method Apdu2Tlv(apdu: Bytes, cmdLen: nat) returns (r: Result<seq<TlvFields>, Exc>)
    ensures r == Apdu2TlvSpec(apdu, cmdLen)
  {
    var s := Slice(apdu, cmdLen, |apdu|);
    var i := 0;
    var tlv: seq<TlvFields> := [];
    PrependNil(ScanFrom(s, 0));
    while i < |s|
      invariant ScanFrom(s, 0) == Prepend(tlv, ScanFrom(s, i))
      decreases if i < |s| then |s| - i else 0
    {
      var one := ReadAt(s, i);
      if one.Err? {
        return Err(one.error);
      }
      var (f, next) := one.value;
      assert ScanFrom(s, i) == Prepend([f], ScanFrom(s, next));
      PrependAssoc(tlv, [f], ScanFrom(s, next));
      tlv := tlv + [f];
      i := next;
    }
    assert tlv + [] == tlv;
    return Ok(tlv);
  }

  // ---------------------------------------------------------------------------
  // What APDU2TLV recovers

  /** A tag as X.690 section 8.1.2.4 lays it out: one byte whose low five bits
      are not all set, or such a leading byte followed by bytes with the high
      bit set and a last byte with the high bit clear. */
  predicate WellTag(t: Bytes)
  {
    && |t| >= 1
    && (t[0] % 32 != 31 ==> |t| == 1)
    && (t[0] % 32 == 31 ==>
          && |t| >= 2
          && (forall k :: 1 <= k < |t| - 1 ==> t[k] >= 0x80)
          && t[|t| - 1] < 0x80)
  }

  /** A TLV with a short-form length. */
  predicate ShortForm(f: TlvFields)
  {
    WellTag(f.tag) && |f.val| <= 127 && f.len == [|f.val|]
  }

  /** How `APDU2TLV` gives a short-form TLV back: unchanged, except that a
      zero length comes back as an empty `L`. */
  function Decoded(f: TlvFields): TlvFields
  {
    if |f.val| == 0 then f.(len := []) else f
  }

  function DecodedAll(ts: seq<TlvFields>): (r: seq<TlvFields>)
    ensures |r| == |ts| && forall k :: 0 <= k < |ts| ==> r[k] == Decoded(ts[k])
  {
    if ts == [] then [] else [Decoded(ts[0])] + DecodedAll(ts[1..])
  }

  /** The concatenated dumps of a list of TLVs. */
  function Encode(ts: seq<TlvFields>): Bytes
  {
    if ts == [] then [] else HexDump(ts[0]) + Encode(ts[1..])
  }

  lemma {:induction false} SkipHighRun(s: Bytes, a: nat, b: nat)
    requires a <= b < |s| && s[b] < 0x80
    requires forall k :: a <= k < b ==> s[k] >= 0x80
    ensures SkipHigh(s, a) == Ok(b)
    decreases b - a
  {
    if a < b {
      SkipHighRun(s, a + 1, b);
    }
  }

  lemma ScanStep(s: Bytes, i: nat, f: TlvFields, next: nat)
    requires i < |s| && ReadOne(s, i) == Ok((f, next))
    ensures ScanFrom(s, i) == Prepend([f], ScanFrom(s, next))
  {
  }

  lemma TagAt(s: Bytes, i: nat, t: Bytes)
    requires WellTag(t) && i + |t| <= |s| && s[i..i + |t|] == t
    ensures TagEnd(s, i) == Ok(i + |t|)
  {
    if t[0] % 32 == 31 {
      forall k | i + 1 <= k < i + |t| - 1
        ensures s[k] >= 0x80
      {
        assert s[k] == t[k - i];
      }
      assert s[i + |t| - 1] == t[|t| - 1];
      SkipHighRun(s, i + 1, i + |t| - 1);
    }
  }

  lemma ValueAt(s: Bytes, j: nat, v: Bytes)
    requires j + |v| <= |s| && s[j..j + |v|] == v
    ensures Slice(s, j, j + |v|) == v
  {
  }

  /** The pieces one iteration of `APDU2TLV` at `i` finds: the tag ends at
      `lt`, the length field is `l`, the value `v` of length `rl` starts at
      `j`, and the next iteration starts at `next`. */
  predicate PartsAt(s: Bytes, i: nat, lt: nat, l: Bytes, j: nat, rl: nat, tag: Bytes, v: Bytes, f: TlvFields, next: nat)
  {
    && i < |s| && TagEnd(s, i) == Ok(lt) && lt < |s| && LenAt(s, lt) == (l, j, rl)
    && s[i..lt] == tag && Slice(s, j, j + rl) == v
    && f == TlvFields(tag, l, v) && next == j + FromBE(l)
  }

  lemma ReadOneParts(s: Bytes, i: nat, lt: nat, l: Bytes, j: nat, rl: nat, tag: Bytes, v: Bytes, f: TlvFields, next: nat)
    requires PartsAt(s, i, lt, l, j, rl, tag, v, f, next)
    ensures ReadOne(s, i) == Ok((f, next))
  {
    ReadOneTagLen(s, i, lt, l, j, rl);
    ReadOneVal(s, i, lt, l, j, rl);
    ReadOneNext(s, i, lt, l, j, rl);
    FieldsEq(ReadOne(s, i), f, next);
  }

  lemma ReadOneTagLen(s: Bytes, i: nat, lt: nat, l: Bytes, j: nat, rl: nat)
    requires i < |s| && TagEnd(s, i) == Ok(lt) && lt < |s| && LenAt(s, lt) == (l, j, rl)
    ensures ReadOne(s, i).Ok? && ReadOne(s, i).value.0.tag == s[i..lt] && ReadOne(s, i).value.0.len == l
  {
  }

  lemma ReadOneVal(s: Bytes, i: nat, lt: nat, l: Bytes, j: nat, rl: nat)
    requires i < |s| && TagEnd(s, i) == Ok(lt) && lt < |s| && LenAt(s, lt) == (l, j, rl)
    ensures ReadOne(s, i).Ok? && ReadOne(s, i).value.0.val == Slice(s, j, j + rl)
  {
  }

  lemma ReadOneNext(s: Bytes, i: nat, lt: nat, l: Bytes, j: nat, rl: nat)
    requires i < |s| && TagEnd(s, i) == Ok(lt) && lt < |s| && LenAt(s, lt) == (l, j, rl)
    ensures ReadOne(s, i).Ok? && ReadOne(s, i).value.1 == j + FromBE(l)
  {
  }

  lemma FieldsEq(r: Result<(TlvFields, nat), Exc>, f: TlvFields, next: nat)
    requires r.Ok? && r.value.0.tag == f.tag && r.value.0.len == f.len && r.value.0.val == f.val
    requires r.value.1 == next
    ensures r == Ok((f, next))
  {
  }

  lemma LenShortAt(s: Bytes, lt: nat, n: nat)
    requires lt < |s| && s[lt] == n < 0x80
    ensures LenAt(s, lt) == (ShortLen(n), lt + 1, n)
    ensures FromBE(ShortLen(n)) == n
  {
    ShortLenValue(n);
  }

  /** Where the three fields of a dumped TLV sit inside a larger buffer. */
  lemma ShortLayout(s: Bytes, i: nat, f: TlvFields, next: nat)
    requires ShortForm(f)
    requires i + |HexDump(f)| <= |s| && s[i..i + |HexDump(f)|] == HexDump(f)
    requires next == i + |HexDump(f)|
    ensures next == i + |f.tag| + 1 + |f.val| <= |s|
    ensures s[i..i + |f.tag|] == f.tag
    ensures s[i + |f.tag|] == |f.val|
    ensures s[i + |f.tag| + 1..i + |f.tag| + 1 + |f.val|] == f.val
  {
    var d := HexDump(f);
    var lt := i + |f.tag|;
    BytesAt(s, i, d);
    assert s[i..lt] == f.tag by {
      forall k | 0 <= k < |f.tag| ensures s[i..lt][k] == f.tag[k] {
        assert d[k] == f.tag[k];
      }
    }
    assert s[lt] == d[|f.tag|];
    assert s[lt + 1..lt + 1 + |f.val|] == f.val by {
      forall k | 0 <= k < |f.val| ensures s[lt + 1..lt + 1 + |f.val|][k] == f.val[k] {
        assert d[|f.tag| + 1 + k] == f.val[k];
      }
    }
  }

  lemma BytesAt(s: Bytes, i: nat, d: Bytes)
    requires i + |d| <= |s| && s[i..i + |d|] == d
    ensures forall k :: 0 <= k < |d| ==> s[i + k] == d[k]
  {
    forall k | 0 <= k < |d| ensures s[i + k] == d[k] {
      assert s[i..i + |d|][k] == d[k];
    }
  }

  lemma ReadOneLaidOut(s: Bytes, i: nat, f: TlvFields, next: nat)
    requires ShortForm(f)
    requires next == i + |f.tag| + 1 + |f.val| <= |s|
    requires s[i..i + |f.tag|] == f.tag
    requires s[i + |f.tag|] == |f.val|
    requires s[i + |f.tag| + 1..i + |f.tag| + 1 + |f.val|] == f.val
    ensures ReadOne(s, i) == Ok((Decoded(f), next))
  {
    var lt := i + |f.tag|;
    var n := |f.val|;
    ShortParts(s, i, f, next);
    ReadOneParts(s, i, lt, ShortLen(n), lt + 1, n, f.tag, f.val, Decoded(f), next);
  }

  lemma ShortParts(s: Bytes, i: nat, f: TlvFields, next: nat)
    requires ShortForm(f)
    requires next == i + |f.tag| + 1 + |f.val| <= |s|
    requires s[i..i + |f.tag|] == f.tag
    requires s[i + |f.tag|] == |f.val|
    requires s[i + |f.tag| + 1..i + |f.tag| + 1 + |f.val|] == f.val
    ensures var lt := i + |f.tag|; var n := |f.val|;
      PartsAt(s, i, lt, ShortLen(n), lt + 1, n, f.tag, f.val, Decoded(f), next)
  {
    var lt := i + |f.tag|;
    LaidOutParts(s, i, f, next);
    ValueAt(s, lt + 1, f.val);
    ShortDecoded(f);
  }

  /** Where `ReadOne` finds the tag and the length of a laid-out short-form TLV. */
  lemma LaidOutParts(s: Bytes, i: nat, f: TlvFields, next: nat)
    requires ShortForm(f)
    requires next == i + |f.tag| + 1 + |f.val| <= |s|
    requires s[i..i + |f.tag|] == f.tag
    requires s[i + |f.tag|] == |f.val|
    ensures var lt := i + |f.tag|; var n := |f.val|;
      && i < |s| && TagEnd(s, i) == Ok(lt) && lt < |s| && LenAt(s, lt) == (ShortLen(n), lt + 1, n)
      && next == lt + 1 + FromBE(ShortLen(n))
  {
    TagAt(s, i, f.tag);
    LenShortAt(s, i + |f.tag|, |f.val|);
  }

  lemma ShortDecoded(f: TlvFields)
    requires ShortForm(f)
    ensures Decoded(f) == TlvFields(f.tag, ShortLen(|f.val|), f.val)
  {
  }

  lemma ReadOneShort(s: Bytes, i: nat, f: TlvFields)
    requires ShortForm(f)
    requires i + |HexDump(f)| <= |s| && s[i..i + |HexDump(f)|] == HexDump(f)
    ensures ReadOne(s, i) == Ok((Decoded(f), i + |HexDump(f)|))
  {
    ShortLayout(s, i, f, i + |HexDump(f)|);
    ReadOneLaidOut(s, i, f, i + |HexDump(f)|);
  }

  lemma {:induction false} ScanEncoded(s: Bytes, i: nat, ts: seq<TlvFields>)
    requires forall k :: 0 <= k < |ts| ==> ShortForm(ts[k])
    requires i <= |s| && s[i..] == Encode(ts)
    ensures ScanFrom(s, i) == Ok(DecodedAll(ts))
    decreases |ts|
  {
    if ts == [] {
      ScanEnd(s, i);
    } else {
      var next := i + |HexDump(ts[0])|;
      EncodedHead(s, i, ts);
      ReadOneShort(s, i, ts[0]);
      ScanStep(s, i, Decoded(ts[0]), next);
      ScanEncoded(s, next, ts[1..]);
      PrependDecoded(ts, ScanFrom(s, next));
    }
  }

  /** The first TLV of a non-empty encoded list and the rest of the list. */
  lemma EncodedHead(s: Bytes, i: nat, ts: seq<TlvFields>)
    requires ts != [] && forall k :: 0 <= k < |ts| ==> ShortForm(ts[k])
    requires i <= |s| && s[i..] == Encode(ts)
    ensures ShortForm(ts[0])
    ensures i + |HexDump(ts[0])| <= |s| && s[i..i + |HexDump(ts[0])|] == HexDump(ts[0])
    ensures forall k :: 0 <= k < |ts[1..]| ==> ShortForm(ts[1..][k])
    ensures i + |HexDump(ts[0])| <= |s| && s[i + |HexDump(ts[0])|..] == Encode(ts[1..])
  {
    var d := HexDump(ts[0]);
    var rest := Encode(ts[1..]);
    assert s[i..] == d + rest;
    assert s[i..i + |d|] == d;
    assert s[i + |d|..] == rest;
  }

  lemma PrependDecoded(ts: seq<TlvFields>, r: Result<seq<TlvFields>, Exc>)
    requires ts != [] && r == Ok(DecodedAll(ts[1..]))
    ensures Prepend([Decoded(ts[0])], r) == Ok(DecodedAll(ts))
  {
  }

  /** `APDU2TLV` skips the `cmdLen` command bytes and gives back, in order,
      every TLV of a concatenation of short-form TLVs (a zero length coming
      back as an empty `L`). */
  lemma Apdu2TlvShortForm(cmd: Bytes, ts: seq<TlvFields>)
    requires forall k :: 0 <= k < |ts| ==> ShortForm(ts[k])
    ensures Apdu2TlvSpec(cmd + Encode(ts), |cmd|) == Ok(DecodedAll(ts))
  {
    var s := cmd + Encode(ts);
    var e := Slice(s, |cmd|, |s|);
    assert e == Encode(ts);
    ScanEncoded(e, 0, ts);
  }

  /** A zero short-form length is kept as an empty `L`, not as `00`. */
  lemma Apdu2TlvZeroLength(tag: Byte)
    requires tag % 32 != 31
    ensures Apdu2TlvSpec([tag, 0], 0) == Ok([TlvFields([tag], [], [])])
  {
    var s: Bytes := [tag, 0];
    assert Slice(s, 0, 2) == s;
    assert TagEnd(s, 0) == Ok(1);
    assert LenAt(s, 1) == ([], 2, 0);
    assert s[0..1] == [tag];
    assert ReadOne(s, 0) == Ok((TlvFields([tag], [], []), 2));
    ScanStep(s, 0, TlvFields([tag], [], []), 2);
    assert ScanFrom(s, 2) == Ok([]);
    assert [TlvFields([tag], [], [])] + [] == [TlvFields([tag], [], [])];
  }

  /** Where the pieces of `[tag] + [0x80 + N] + lb + val + rest` sit. */
  lemma LongLayout(tag: Byte, lb: Bytes, val: Bytes, rest: Bytes, n: Byte, l: Bytes, s: Bytes)
    requires 1 <= |lb| <= 127 && FromBE(lb) == |val| && |rest| <= 0x80 * Pow256(|lb|)
    requires n == 0x80 + |lb| && l == [n] + lb && s == [tag] + [n] + lb + val + rest
    ensures 2 <= |l| <= 128 && l[0] == 0x80 + (|l| - 1) && FromBE(l[1..]) == |val|
    ensures 1 + |l| + |val| <= |s| <= 1 + |l| + |val| + 0x80 * Pow256(|l| - 1)
    ensures 1 <= |s| && s[0] == tag && s[0..1] == [tag] && s[1] == l[0]
    ensures Slice(s, 1, 1 + |l|) == l && Slice(s, 1 + |l|, 1 + |l| + |val|) == val
  {
    LongLengthField(lb, val, n, l);
    LongSize(tag, lb, val, rest, n, l, s);
    LongBytes(tag, lb, val, rest, n, l, s);
  }

  lemma LongLengthField(lb: Bytes, val: Bytes, n: Byte, l: Bytes)
    requires 1 <= |lb| <= 127 && FromBE(lb) == |val|
    requires n == 0x80 + |lb| && l == [n] + lb
    ensures 2 <= |l| <= 128 && l[0] == 0x80 + (|l| - 1) && FromBE(l[1..]) == |val|
  {
    assert l[1..] == lb;
  }

  lemma LongSize(tag: Byte, lb: Bytes, val: Bytes, rest: Bytes, n: Byte, l: Bytes, s: Bytes)
    requires 1 <= |lb| <= 127 && |rest| <= 0x80 * Pow256(|lb|)
    requires l == [n] + lb && s == [tag] + [n] + lb + val + rest
    ensures 1 + |l| + |val| <= |s| <= 1 + |l| + |val| + 0x80 * Pow256(|l| - 1)
  {
    var p := Pow256(|lb|);
    assert |s| == 1 + |l| + |val| + |rest|;
    Pow256Eq(|l| - 1, |lb|);
    assert |rest| <= 0x80 * p;
  }

  lemma LongBytes(tag: Byte, lb: Bytes, val: Bytes, rest: Bytes, n: Byte, l: Bytes, s: Bytes)
    requires l == [n] + lb && s == [tag] + [n] + lb + val + rest
    ensures 1 <= |s| && s[0] == tag && s[0..1] == [tag] && s[1] == l[0]
    ensures Slice(s, 1, 1 + |l|) == l && Slice(s, 1 + |l|, 1 + |l| + |val|) == val
  {
    assert s == [tag] + l + val + rest;
    BytesIn([tag], l, val + rest, s);
    assert s == ([tag] + l) + val + rest;
    BytesIn([tag] + l, val, rest, s);
  }

  /** The middle part of a three-part concatenation. */
  lemma BytesIn(a: Bytes, b: Bytes, c: Bytes, s: Bytes)
    requires s == a + b + c
    ensures Slice(s, |a|, |a| + |b|) == b && s[..|a|] == a
  {
    assert s[|a|..|a| + |b|] == b;
  }

  lemma LenLongAt(s: Bytes, lt: nat)
    requires lt < |s| && s[lt] >= 0x80
    ensures var n := s[lt] - 0x80; var l := Slice(s, lt, lt + 1 + n);
      LenAt(s, lt) == (l, lt + 1 + n, FromBE(l[1..]))
  {
  }

  /** The long-form length field `l` read at index 1. */
  lemma LongLenAt(s: Bytes, l: Bytes, vlen: nat)
    requires 2 <= |l| <= 128 && l[0] == 0x80 + (|l| - 1) && FromBE(l[1..]) == vlen
    requires 1 + |l| <= |s| && s[1] == l[0] && Slice(s, 1, 1 + |l|) == l
    ensures LenAt(s, 1) == (l, 1 + |l|, vlen)
  {
    LenLongAt(s, 1);
    assert 1 + 1 + (s[1] - 0x80) == 1 + |l|;
  }

  /** The first iteration over a long-form TLV at the start of the buffer. */
  lemma LongReadOne(s: Bytes, tag: Byte, l: Bytes, val: Bytes, f: TlvFields, next: nat)
    requires tag % 32 != 31
    requires 2 <= |l| <= 128 && l[0] == 0x80 + (|l| - 1) && FromBE(l[1..]) == |val|
    requires 1 + |l| + |val| <= |s|
    requires 1 <= |s| && s[0] == tag && s[0..1] == [tag] && s[1] == l[0]
    requires Slice(s, 1, 1 + |l|) == l && Slice(s, 1 + |l|, 1 + |l| + |val|) == val
    requires f == TlvFields([tag], l, val) && next == 1 + |l| + FromBE(l)
    ensures ReadOne(s, 0) == Ok((f, next))
  {
    LongParts(s, tag, l, val, f, next);
    ReadOneParts(s, 0, 1, l, 1 + |l|, |val|, [tag], val, f, next);
  }

  lemma LongParts(s: Bytes, tag: Byte, l: Bytes, val: Bytes, f: TlvFields, next: nat)
    requires tag % 32 != 31
    requires 2 <= |l| <= 128 && l[0] == 0x80 + (|l| - 1) && FromBE(l[1..]) == |val|
    requires 1 + |l| + |val| <= |s|
    requires 1 <= |s| && s[0] == tag && s[0..1] == [tag] && s[1] == l[0]
    requires Slice(s, 1, 1 + |l|) == l && Slice(s, 1 + |l|, 1 + |l| + |val|) == val
    requires f == TlvFields([tag], l, val) && next == 1 + |l| + FromBE(l)
    ensures PartsAt(s, 0, 1, l, 1 + |l|, |val|, [tag], val, f, next)
  {
    LongLenAt(s, l, |val|);
  }

  /** The whole long-form `L`, read as a number, is at least `0x80 * 256^N`
      beyond the value length. */
  lemma LongFormSkip(l: Bytes, vlen: nat)
    requires 2 <= |l| && l[0] >= 0x80 && FromBE(l[1..]) == vlen
    ensures FromBE(l) >= 0x80 * Pow256(|l| - 1) + vlen
  {
    var p := Pow256(|l| - 1);
    assert l == [l[0]] + l[1..];
    FromBECons(l[0], l[1..]);
    assert FromBE(l) == l[0] * p + vlen;
    MulLe(0x80, l[0], p);
  }

  /** So the index after a long-form TLV lies past the end of the buffer. */
  lemma LongSkipsPast(l: Bytes, vlen: nat, size: nat)
    requires 2 <= |l| && l[0] >= 0x80 && FromBE(l[1..]) == vlen
    requires size <= 1 + |l| + vlen + 0x80 * Pow256(|l| - 1)
    ensures 1 + |l| + FromBE(l) >= size
  {
    LongFormSkip(l, vlen);
  }

  lemma Pow256Eq(a: nat, b: nat)
    requires a == b
    ensures Pow256(a) == Pow256(b)
  {
  }

  lemma MulLe(a: nat, b: nat, c: nat)
    requires a <= b
    ensures a * c <= b * c
  {
  }

  lemma ScanEnd(s: Bytes, i: nat)
    requires i >= |s|
    ensures ScanFrom(s, i) == Ok([])
  {
  }

  lemma PrependOne(t: TlvFields)
    ensures Prepend([t], Ok([])) == Ok([t])
  {
    assert [t] + [] == [t];
  }

  lemma LongFormCore(s: Bytes, tag: Byte, l: Bytes, val: Bytes, t: TlvFields)
    requires tag % 32 != 31
    requires 2 <= |l| <= 128 && l[0] == 0x80 + (|l| - 1) && FromBE(l[1..]) == |val|
    requires 1 + |l| + |val| <= |s| <= 1 + |l| + |val| + 0x80 * Pow256(|l| - 1)
    requires 1 <= |s| && s[0] == tag && s[0..1] == [tag] && s[1] == l[0]
    requires Slice(s, 1, 1 + |l|) == l && Slice(s, 1 + |l|, 1 + |l| + |val|) == val
    requires t == TlvFields([tag], l, val)
    ensures ScanFrom(s, 0) == Ok([t])
  {
    var next := 1 + |l| + FromBE(l);
    LongReadOne(s, tag, l, val, t, next);
    LongSkipsPast(l, |val|, |s|);
    ScanStep(s, 0, t, next);
    ScanEnd(s, next);
    PrependOne(t);
  }

  lemma WholeScan(s: Bytes, r: Result<seq<TlvFields>, Exc>)
    requires ScanFrom(s, 0) == r
    ensures Apdu2TlvSpec(s, 0) == r
  {
    assert Slice(s, 0, |s|) == s;
  }

  /** A long-form TLV is decoded, but the scan then advances by the value of
      all of `L`, `0x8N` byte included, and skips whatever follows (up to
      `0x80 * 256^N` bytes: in practice the rest of the buffer). */
  lemma Apdu2TlvLongFormEndsScan(tag: Byte, lb: Bytes, val: Bytes, rest: Bytes)
    requires tag % 32 != 31
    requires 1 <= |lb| <= 127 && FromBE(lb) == |val|
    requires |rest| <= 0x80 * Pow256(|lb|)
    ensures var n: Byte := 0x80 + |lb|;
      Apdu2TlvSpec([tag] + [n] + lb + val + rest, 0) == Ok([TlvFields([tag], [n] + lb, val)])
  {
    var n: Byte := 0x80 + |lb|;
    LongFormWhole(tag, lb, val, rest, n, [n] + lb, [tag] + [n] + lb + val + rest, TlvFields([tag], [n] + lb, val));
  }

  lemma LongFormWhole(tag: Byte, lb: Bytes, val: Bytes, rest: Bytes, n: Byte, l: Bytes, s: Bytes, t: TlvFields)
    requires tag % 32 != 31
    requires 1 <= |lb| <= 127 && FromBE(lb) == |val|
    requires |rest| <= 0x80 * Pow256(|lb|)
    requires n == 0x80 + |lb| && l == [n] + lb && s == [tag] + [n] + lb + val + rest
    requires t == TlvFields([tag], l, val)
    ensures Apdu2TlvSpec(s, 0) == Ok([t])
  {
    LongLayout(tag, lb, val, rest, n, l, s);
    LongFormCore(s, tag, l, val, t);
    WholeScan(s, Ok([t]));
  }
}
