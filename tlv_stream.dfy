/** Byte-at-a-time filling of a TLV (`TLV.populate` with `__check_tag`,
    `__check_len` and `__get_value`, services/lib/kali/COMMON/TLV.py).

    The state of a `TLV()` object in this use is the value `TlvState`; one
    call of `populate` is the function `Step`, and the class `TlvUnit` is the
    object itself, whose `Populate` method updates its fields exactly as
    `Step` says. */
module TlvStream {
  import opened Wrappers
  import opened Bytes
  import opened Tlv

  /** `_len_bytes`: not yet assigned, a countdown, or (after a long-form first
      length byte) the raw byte itself. */
  datatype LenBytes = Unset | Count(n: int) | Raw(b: Bytes)

  datatype TlvState = TlvState(
    tag: Bytes, len: Bytes, val: Bytes,
    complete: bool, tagComplete: bool, lenComplete: bool, valueComplete: bool,
    firstTagByte: bool, firstLenByte: bool,
    length: Option<int>, lenBytes: LenBytes)

  /** A freshly built `TLV()`. */
  const Fresh := TlvState([], [], [], false, false, false, false, false, false, None, Unset)

  /** `__check_tag`: appends the byte; the tag is complete at a byte whose low
      five bits are not all set (or, for a continuation byte, whose high bit is
      clear; but `_first_tag_byte` is never set, so that case never applies). */
  function CheckTag(s: TlvState, b: Bytes): (r: TlvState)
    ensures r == s.(tag := s.tag + b, tagComplete := r.tagComplete)
    ensures s.tagComplete ==> r.tagComplete
  {
    var bt := FromBE(b);
    var done := (bt % 32 != 31 && !s.firstTagByte) || ((bt / 128) % 2 == 0 && s.firstTagByte);
    s.(tagComplete := s.tagComplete || done, tag := s.tag + b)
  }

  /** `__check_len`: a short-form byte completes the length; a long-form first
      byte stores itself in `_len_bytes`; a later byte is appended and the
      countdown decremented, which raises TypeError when `_len_bytes` holds
      bytes. */
  function CheckLen(s: TlvState, b: Bytes): (r: (TlvState, Option<Exc>))
    ensures r.0.tag == s.tag && r.0.val == s.val && r.0.tagComplete == s.tagComplete
    ensures s.lenComplete ==> r.0.lenComplete
    ensures r.1.Some? ==> r.1.value == TypeError || r.1.value == AttributeError
  {
    var bt := FromBE(b);
    if (bt / 128) % 2 == 0 && !s.firstLenByte then
      (s.(lenComplete := true, firstLenByte := true, len := b, lenBytes := Count(1)), None)
    else if !s.firstLenByte then
      (s.(lenBytes := Raw(b), firstLenByte := true), None)
    else
      var s1 := s.(len := s.len + b);
      match s.lenBytes
      case Count(n) =>
        var s2 := s1.(lenBytes := Count(n - 1));
        (if n - 1 == 0 then s2.(lenComplete := true) else s2, None)
      case Raw(_) => (s1, Some(TypeError))
      case Unset => (s1, Some(AttributeError))
  }

  /** `__get_value`: appends while bytes are still expected; when the
      countdown is at zero the value is complete and `length` is reset to the
      announced length.  A zero countdown on entry drops the byte. */
  function GetValue(s: TlvState, b: Bytes): (r: (TlvState, Option<Exc>))
    ensures r.0.tag == s.tag && r.0.len == s.len
    ensures r.0.val == s.val || r.0.val == s.val + b
    ensures r.1.Some? <==> s.length.None?
    ensures r.1.Some? ==> r == (s, Some(TypeError))
  {
    match s.length
    case None => (s, Some(TypeError))
    case Some(n) =>
      var s1 := if n > 0 then s.(val := s.val + b, length := Some(n - 1)) else s;
      if s1.length == Some(0) then
        (s1.(valueComplete := true, length := Some(FromBE(s1.len))), None)
      else (s1, None)
  }

  /** One call of `populate(b)`: the new state, and the exception raised if
      any (the state then holds the updates made before the raise). */
  function Step(s: TlvState, b: Bytes): (r: (TlvState, Option<Exc>))
    ensures r.1.Some? ==> r.1.value == TypeError || r.1.value == AttributeError
    ensures s.complete ==> r == (s, None)
  {
    if s.complete then (s, None)
    else
      var (s1, e) :=
        if !s.tagComplete then (CheckTag(s, b), None)
        else if !s.lenComplete then
          var (t, e) := CheckLen(s, b);
          if e.Some? then (t, e) else (t.(length := Some(FromBE(t.len))), None)
        else if !s.valueComplete then GetValue(s, b)
        else (s, None);
      if e.Some? then (s1, e)
      else if s1.tagComplete && s1.lenComplete && s1.valueComplete then (s1.(complete := true), None)
      else (s1, None)
  }

  /** Feeding `bs` one byte per `populate` call, stopping at an exception. */
  function Feed(s: TlvState, bs: Bytes): (r: (TlvState, Option<Exc>))
    ensures r.1.Some? ==> r.1.value == TypeError || r.1.value == AttributeError
    decreases |bs|
  {
    if bs == [] then (s, None)
    else
      var (t, e) := Step(s, [bs[0]]);
      if e.Some? then (t, e) else Feed(t, bs[1..])
  }

  lemma {:induction false} FeedSnoc(s: TlvState, p: Bytes, x: Byte)
    ensures Feed(s, p + [x]) ==
      (var (t, e) := Feed(s, p); if e.Some? then (t, e) else Step(t, [x]))
    decreases |p|
  {
    if p == [] {
      assert p + [x] == [x];
      assert [x][1..] == [];
    } else {
      var (t, e) := Step(s, [p[0]]);
      assert (p + [x])[0] == p[0];
      assert (p + [x])[1..] == p[1..] + [x];
      if e.None? {
        FeedSnoc(t, p[1..], x);
      }
    }
  }

  /** Once `complete`, further `populate` calls change nothing. */
  lemma {:induction false} FeedAfterComplete(s: TlvState, bs: Bytes)
    requires s.complete
    ensures Feed(s, bs) == (s, None)
  {
    if bs != [] {
      FeedAfterComplete(s, bs[1..]);
    }
  }

  // ---------------------------------------------------------------------------
  // Agreement with the one-shot TLV

  /** A tag as the incremental reader delimits it: every byte but the last has
      its low five bits all set, the last does not.  (`E0`, `DF01` and `DF02`
      are such tags.) */
  predicate IncTag(t: Bytes)
  {
    && |t| >= 1
    && (forall k :: 0 <= k < |t| - 1 ==> t[k] % 32 == 31)
    && t[|t| - 1] % 32 != 31
  }

  /** The state after the first `k` bytes of `t ‖ [|v|] ‖ v`. */
  function Expected(t: Bytes, v: Bytes, k: nat): TlvState
    requires |t| >= 1 && 1 <= |v| <= 127 && k <= |t| + 1 + |v|
  {
    if k <= |t| then Fresh.(tag := t[..k], tagComplete := k == |t|)
    else
      var lenDone := Fresh.(tag := t, tagComplete := true, lenComplete := true, firstLenByte := true,
                            len := [|v|], lenBytes := Count(1), length := Some(|v|));
      var j := k - |t| - 1;
      if j < |v| then lenDone.(val := v[..j], length := Some(|v| - j))
      else lenDone.(val := v, valueComplete := true, complete := true)
  }

  lemma StepInTag(t: Bytes, v: Bytes, k: nat)
    requires IncTag(t) && 1 <= |v| <= 127 && k < |t|
    ensures Step(Expected(t, v, k), [t[k]]) == (Expected(t, v, k + 1), None)
  {
    FromBESingle(t[k]);
    assert t[..k] + [t[k]] == t[..k + 1];
    assert t[..|t|] == t;
  }

  lemma StepAtLength(t: Bytes, v: Bytes)
    requires IncTag(t) && 1 <= |v| <= 127
    ensures Step(Expected(t, v, |t|), [|v|]) == (Expected(t, v, |t| + 1), None)
  {
    FromBESingle(|v|);
    assert t[..|t|] == t;
    assert v[..0] == [];
  }

  lemma StepInValue(t: Bytes, v: Bytes, j: nat)
    requires IncTag(t) && 1 <= |v| <= 127 && j < |v|
    ensures Step(Expected(t, v, |t| + 1 + j), [v[j]]) == (Expected(t, v, |t| + 2 + j), None)
  {
    FromBESingle(|v|);
    assert v[..j] + [v[j]] == v[..j + 1];
    assert v[..|v|] == v;
  }

  lemma {:induction false} FeedPrefix(t: Bytes, v: Bytes, k: nat)
    requires IncTag(t) && 1 <= |v| <= 127 && k <= |t| + 1 + |v|
    ensures Feed(Fresh, (t + [|v|] + v)[..k]) == (Expected(t, v, k), None)
  {
    var input := t + [|v|] + v;
    if k == 0 {
      assert input[..0] == [];
      assert t[..0] == [];
    } else {
      FeedPrefix(t, v, k - 1);
      assert input[..k] == input[..k - 1] + [input[k - 1]];
      FeedSnoc(Fresh, input[..k - 1], input[k - 1]);
      if k - 1 < |t| {
        assert input[k - 1] == t[k - 1];
        StepInTag(t, v, k - 1);
      } else if k - 1 == |t| {
        assert input[k - 1] == |v|;
        StepAtLength(t, v);
      } else {
        assert input[k - 1] == v[k - 2 - |t|];
        StepInValue(t, v, k - 2 - |t|);
      }
    }
  }

  /** Feeding `tag ‖ calc_len(value) ‖ value` one byte at a time (a short-form
      length, a value of 1 to 127 bytes) raises nothing, leaves the TLV
      incomplete before the last byte and completes it on the last byte, with
      the same tag, length and value as the TLV built in one go. */
  lemma IncrementalMatchesOneShot(t: Bytes, v: Bytes)
    requires IncTag(t) && 1 <= |v| <= 127
    ensures var input := t + [|v|] + v;
      && (forall k :: 0 <= k < |input| ==>
            Feed(Fresh, input[..k]).1.None? && !Feed(Fresh, input[..k]).0.complete)
      && Feed(Fresh, input).1.None?
      && Feed(Fresh, input).0.complete
      && NewTlv(Some(t), Some(v), None)
         == Ok(TlvFields(Feed(Fresh, input).0.tag, Feed(Fresh, input).0.len, Feed(Fresh, input).0.val))
  {
    var input := t + [|v|] + v;
    forall k | 0 <= k < |input|
      ensures Feed(Fresh, input[..k]).1.None? && !Feed(Fresh, input[..k]).0.complete
    {
      FeedPrefix(t, v, k);
    }
    FeedPrefix(t, v, |input|);
    assert input[..|input|] == input;
  }

  /** `E0`, `DF01` and `DF02`, the tags of the protocol header, are read as
      the one-shot codec writes them. */
  lemma HeaderTagsAreIncTags()
    ensures IncTag([0xE0]) && IncTag([0xDF, 0x01]) && IncTag([0xDF, 0x02])
  {
  }

  /** The incremental tag ends at the first byte whose low five bits are not
      all set, even where X.690 continues the tag: `1F 81` is complete after
      two bytes although `81` has its high bit set. */
  lemma IncrementalTagEndsEarly()
    ensures IncTag([0x1F, 0x81]) && !WellTag([0x1F, 0x81])
    ensures Feed(Fresh, [0x1F, 0x81]) == (Fresh.(tag := [0x1F, 0x81], tagComplete := true), None)
  {
    FromBESingle(0x1F);
    FromBESingle(0x81);
    var s1 := Step(Fresh, [0x1F]).0;
    assert s1 == Fresh.(tag := [0x1F]);
    assert [0x1F, 0x81][1..] == [0x81];
    assert [0x81][1..] == [];
    assert [0x1F] + [0x81] == [0x1F, 0x81];
  }

  /** A zero short-form length needs one more `populate` call, whose byte is
      dropped, before the TLV is complete. */
  lemma ZeroLengthSwallowsByte(t: Bytes, x: Byte)
    requires IncTag(t)
    ensures !Feed(Fresh, t + [0]).0.complete && Feed(Fresh, t + [0]).1.None?
    ensures Feed(Fresh, t + [0, x]) ==
      (Fresh.(tag := t, len := [0], complete := true, tagComplete := true, lenComplete := true,
              valueComplete := true, firstLenByte := true, length := Some(0), lenBytes := Count(1)), None)
  {
    var tagDone := Fresh.(tag := t, tagComplete := true);
    TagFeed(t);
    FromBESingle(0);
    FromBESingle(x);
    var lenDone := tagDone.(len := [0], lenComplete := true, firstLenByte := true,
                            length := Some(0), lenBytes := Count(1));
    FeedSnoc(Fresh, t, 0);
    assert Step(tagDone, [0]) == (lenDone, None);
    assert t + [0, x] == (t + [0]) + [x];
    FeedSnoc(Fresh, t + [0], x);
  }

  /** Feeding exactly an incremental tag completes the tag and nothing else. */
  lemma TagFeed(t: Bytes)
    requires IncTag(t)
    ensures Feed(Fresh, t) == (Fresh.(tag := t, tagComplete := true), None)
  {
    var v: Bytes := [0];
    FeedPrefix(t, v, |t|);
    assert (t + [|v|] + v)[..|t|] == t;
    assert t[..|t|] == t;
  }

  /** A long-form first length byte followed by any byte raises TypeError:
      the second byte decrements `_len_bytes`, which then holds bytes. */
  lemma LongFormLengthFails(t: Bytes, first: Byte, x: Byte)
    requires IncTag(t) && first >= 0x80
    ensures Feed(Fresh, t + [first, x]).1 == Some(TypeError)
  {
    var tagDone := Fresh.(tag := t, tagComplete := true);
    TagFeed(t);
    FromBESingle(first);
    var s1 := tagDone.(lenBytes := Raw([first]), firstLenByte := true, length := Some(0));
    FeedSnoc(Fresh, t, first);
    assert Step(tagDone, [first]) == (s1, None);
    assert t + [first, x] == (t + [first]) + [x];
    FeedSnoc(Fresh, t + [first], x);
  }

  /** Feeding `input` one byte per `populate` from `s` raises nothing and
      completes the TLV exactly on the last byte. */
  predicate CompletesAt(s: TlvState, input: Bytes)
  {
    && (forall k :: 0 <= k < |input| ==> Feed(s, input[..k]).1.None? && !Feed(s, input[..k]).0.complete)
    && Feed(s, input).1.None? && Feed(s, input).0.complete
  }

  /** The three fields as `getTag`, `getLen` and `getVal` give them. */
  function FieldsOf(s: TlvState): TlvFields
  {
    TlvFields(s.tag, s.len, s.val)
  }

  /** A zero short-form length followed by any byte completes on that byte,
      with an empty value. */
  lemma ZeroLengthCompletesAt(t: Bytes, x: Byte)
    requires IncTag(t)
    ensures CompletesAt(Fresh, t + [0, x])
    ensures FieldsOf(Feed(Fresh, t + [0, x]).0) == TlvFields(t, [0], [])
  {
    var input := t + [0, x];
    ZeroLengthSwallowsByte(t, x);
    forall k | 0 <= k < |input|
      ensures Feed(Fresh, input[..k]).1.None? && !Feed(Fresh, input[..k]).0.complete
    {
      if k <= |t| {
        FeedPrefix(t, [0], k);
        assert (t + [1] + [0])[..k] == input[..k];
      } else {
        assert input[..k] == t + [0];
      }
    }
  }

  // ---------------------------------------------------------------------------
  // Progress of `populate` on a buffer padded with empty reads

  /** The states `populate` reaches from `TLV()` without raising. */
  predicate Wf(s: TlvState)
  {
    && (s.complete <==> s.valueComplete)
    && (s.valueComplete ==> s.lenComplete)
    && (s.lenComplete ==> s.tagComplete && s.length.Some? && s.length.value >= 0)
    && (!s.tagComplete ==> !s.firstLenByte)
    && (s.tagComplete && !s.lenComplete && s.firstLenByte ==> s.lenBytes.Raw?)
  }

  /** How many of the three fields are still open. */
  function Rank(s: TlvState): nat
  {
    if s.complete then 0 else if !s.tagComplete then 3 else if !s.lenComplete then 2 else 1
  }

  /** The calls left in the current field, `avail` being the number of
      non-empty bytes still to come. */
  function Budget(s: TlvState, avail: nat): nat
  {
    if s.complete then 0
    else if !s.tagComplete then avail
    else if !s.lenComplete then (if s.firstLenByte then 0 else 1)
    else if s.length.Some? && s.length.value >= 0 then s.length.value
    else 0
  }

  lemma FreshWf()
    ensures Wf(Fresh)
  {
  }

  /** A `populate` call with a one-byte or empty input either raises or keeps
      the state well formed and makes progress: an empty input completes the
      tag or the length at once, and a value is never longer than announced.
      So feeding a finite buffer and then empty reads always ends. */
  lemma StepProgress(s: TlvState, b: Bytes, avail: nat)
    requires Wf(s) && !s.complete
    requires |b| <= 1 && (b == [] <==> avail == 0)
    ensures var (t, e) := Step(s, b);
      e.None? ==>
        && Wf(t)
        && (Rank(t) < Rank(s) ||
            (Rank(t) == Rank(s) && Budget(t, if avail > 0 then avail - 1 else 0) < Budget(s, avail)))
  {
    if b == [] {
      assert FromBE(b) == 0;
    } else {
      FromBESingle(b[0]);
      assert b == [b[0]];
    }
  }

  // ---------------------------------------------------------------------------
  // The object

  /** A `TLV()` object filled by `populate`. */
  class TlvUnit {
    var tag: Bytes
    var len: Bytes
    var val: Bytes
    var complete: bool
    var tagComplete: bool
    var lenComplete: bool
    var valueComplete: bool
    var firstTagByte: bool
    var firstLenByte: bool
    var length: Option<int>
    var lenBytes: LenBytes

    function State(): TlvState
      reads this
    {
      TlvState(tag, len, val, complete, tagComplete, lenComplete, valueComplete,
               firstTagByte, firstLenByte, length, lenBytes)
    }

    /** `TLV()` */
    constructor ()
      ensures State() == Fresh
    {
      tag, len, val := [], [], [];
      complete, tagComplete, lenComplete, valueComplete := false, false, false, false;
      firstTagByte, firstLenByte := false, false;
      length, lenBytes := None, Unset;
    }

    /** `TLV.getTag`, `getLen`, `getVal` */
    function Fields(): (r: TlvFields)
      reads this
      ensures r.tag == tag && r.len == len && r.val == val
    {
      TlvFields(tag, len, val)
    }

    /** `TLV.populate(b)`; `err` is the exception raised, if any. */
    method Populate(b: Bytes) returns (err: Option<Exc>)
      modifies this
      ensures (State(), err) == Step(old(State()), b)
    {
      if complete {
        return None;
      }
      err := None;
      if !tagComplete {
        CheckTagBytes(b);
      } else if !lenComplete {
        err := CheckLenBytes(b);
        if err.Some? {
          return;
        }
        length := Some(FromBE(len));
      } else if !valueComplete {
        err := GetValueBytes(b);
        if err.Some? {
          return;
        }
      }
      if tagComplete && lenComplete && valueComplete {
        complete := true;
      }
    }

    /** `TLV.__check_tag` */
    method CheckTagBytes(b: Bytes)
      modifies this
      ensures State() == CheckTag(old(State()), b)
    {
      var bt := FromBE(b);
      if (bt % 32 != 31 && !firstTagByte) || ((bt / 128) % 2 == 0 && firstTagByte) {
        tagComplete := true;
      }
      tag := tag + b;
    }

    /** `TLV.__check_len` */
    method CheckLenBytes(b: Bytes) returns (err: Option<Exc>)
      modifies this
      ensures (State(), err) == CheckLen(old(State()), b)
    {
      var bt := FromBE(b);
      err := None;
      if (bt / 128) % 2 == 0 && !firstLenByte {
        lenComplete := true;
        firstLenByte := true;
        len := b;
        lenBytes := Count(1);
      } else if !firstLenByte {
        lenBytes := Raw(b);
        firstLenByte := true;
      } else {
        len := len + b;
        match lenBytes {
          case Count(n) =>
            lenBytes := Count(n - 1);
            if n - 1 == 0 {
              lenComplete := true;
            }
          case Raw(_) =>
            err := Some(TypeError);
          case Unset =>
            err := Some(AttributeError);
        }
      }
    }

    /** `TLV.__get_value` */
    method GetValueBytes(b: Bytes) returns (err: Option<Exc>)
      modifies this
      ensures (State(), err) == GetValue(old(State()), b)
    {
      if length.None? {
        return Some(TypeError);
      }
      if length.value > 0 {
        val := val + b;
        length := Some(length.value - 1);
      }
      if length == Some(0) {
        valueComplete := true;
        length := Some(FromBE(len));
      }
      return None;
    }
  }
}
