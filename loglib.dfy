/** The line cache of the log collector: handlers append the text they
    receive to a list of complete lines shared with the `LogLib` object,
    keeping a partial trailing line back until its end arrives. */
module Loglib {
  import opened Wrappers
  import opened Text

  const EOL := '\n'

  /** The list of lines that `LogLib` hands to each of its handlers; all of
      them append to the same list. */
  class LineCache {
    var lines: seq<string>

    constructor ()
      ensures lines == []
    {
      lines := [];
    }
  }

  /** Each line followed by a line end, as the lines were received. */
  function Terminated(lines: seq<string>): string
  {
    if lines == [] then "" else lines[0] + [EOL] + Terminated(lines[1..])
  }

  lemma {:induction false} TerminatedAppend(a: seq<string>, b: seq<string>)
    ensures Terminated(a + b) == Terminated(a) + Terminated(b)
    decreases |a|
  {
    if a == [] {
      assert a + b == b;
    } else {
      assert (a + b)[1..] == a[1..] + b;
      TerminatedAppend(a[1..], b);
    }
  }

  lemma {:induction false} SumLengthsAppend(a: seq<string>, b: seq<string>)
    ensures SumLengths(a + b) == SumLengths(a) + SumLengths(b)
    decreases |a|
  {
    if a == [] {
      assert a + b == b;
    } else {
      assert (a + b)[1..] == a[1..] + b;
      SumLengthsAppend(a[1..], b);
    }
  }

  /** All parts but the last, each with its line end, then the last part:
      the same text as the parts joined with line ends. */
  lemma {:induction false} TerminatedJoin(parts: seq<string>)
    requires |parts| >= 1
    ensures Terminated(parts[..|parts| - 1]) + parts[|parts| - 1] == Join(parts, EOL)
    decreases |parts|
  {
    if |parts| > 1 {
      var rest := parts[1..];
      TerminatedJoin(rest);
      assert parts[..|parts| - 1] == [parts[0]] + rest[..|rest| - 1];
      assert parts[..|parts| - 1][1..] == rest[..|rest| - 1];
    }
  }

  /** Prefixing the first part prefixes the joined text. */
  lemma JoinPrefixFirst(parts: seq<string>, c: string)
    requires |parts| >= 1
    ensures Join(parts[0 := c + parts[0]], EOL) == c + Join(parts, EOL)
  {
    if |parts| > 1 {
      assert parts[0 := c + parts[0]][1..] == parts[1..];
    }
  }

  function CarryText(carry: Option<string>): string
  {
    if carry.Some? then carry.value else ""
  }

  /** The parts `append_line` works on: the input split at line ends, with a
      pending partial line put in front of the first part. */
  function Segments(carry: Option<string>, text: string): (r: seq<string>)
    ensures |r| >= 1
    ensures Join(r, EOL) == CarryText(carry) + text
  {
    var parts := Split(text, EOL);
    JoinSplit(text, EOL);
    if carry.Some? then
      JoinPrefixFirst(parts, carry.value);
      parts[0 := carry.value + parts[0]]
    else parts
  }

  /** The partial line kept back after the parts: the last one, unless empty. */
  function CarryAfter(parts: seq<string>): (r: Option<string>)
    requires |parts| >= 1
    ensures CarryText(r) == parts[|parts| - 1]
    ensures r.Some? ==> r.value != ""
  {
    if |parts[|parts| - 1]| > 0 then Some(parts[|parts| - 1]) else None
  }

  /** The cached lines, then all parts but the last with their line ends,
      then the last part: the cached text followed by the joined parts. */
  lemma TerminatedThenJoin(cached: seq<string>, parts: seq<string>)
    requires |parts| >= 1
    ensures Terminated(cached + parts[..|parts| - 1]) + parts[|parts| - 1]
            == Terminated(cached) + Join(parts, EOL)
  {
    var body := parts[..|parts| - 1];
    TerminatedAppend(cached, body);
    TerminatedJoin(parts);
    ConcatAssoc(Terminated(cached), Terminated(body), parts[|parts| - 1]);
  }

  /** The same, for parts whose join is known. */
  lemma KeepsText(cached: seq<string>, parts: seq<string>, joined: string)
    requires |parts| >= 1 && Join(parts, EOL) == joined
    ensures Terminated(cached + parts[..|parts| - 1]) + CarryText(CarryAfter(parts))
            == Terminated(cached) + joined
  {
    TerminatedThenJoin(cached, parts);
  }

  /** Lines written to the cache plus the partial line kept back are exactly
      the text received: nothing is lost, duplicated or reordered. */
  lemma AppendKeepsText(cached: seq<string>, carry: Option<string>, text: string)
    ensures var parts := Segments(carry, text);
      Terminated(cached + parts[..|parts| - 1]) + CarryText(CarryAfter(parts))
        == Terminated(cached) + CarryText(carry) + text
  {
    KeepsText(cached, Segments(carry, text), CarryText(carry) + text);
    ConcatAssoc(Terminated(cached), CarryText(carry), text);
  }

  /** The parts hold the pending line and the characters of `text` other
      than line ends. */
  lemma SegmentsLengths(carry: Option<string>, text: string)
    ensures SumLengths(Segments(carry, text)) == |CarryText(carry)| + (|text| - Count(text, EOL))
  {
    var split := Split(text, EOL);
    SplitLengths(text, EOL);
    if carry.Some? {
      assert Segments(carry, text)[1..] == split[1..];
    }
  }

  lemma {:induction false} LastLengths(parts: seq<string>)
    requires |parts| >= 1
    ensures SumLengths(parts[..|parts| - 1]) + |parts[|parts| - 1]| == SumLengths(parts)
    decreases |parts|
  {
    if |parts| == 1 {
      assert parts[..0] == [];
    } else {
      var rest := parts[1..];
      LastLengths(rest);
      assert parts[..|parts| - 1][1..] == rest[..|rest| - 1];
    }
  }

  /** The characters an accepted call adds to `size` and to the kept-back
      line are the pending line plus the characters of `text` the limit check
      counts. */
  lemma SizeGrowth(carry: Option<string>, text: string)
    ensures var parts := Segments(carry, text);
      SumLengths(parts[..|parts| - 1]) + |CarryText(CarryAfter(parts))|
        == |CarryText(carry)| + (|text| - Count(text, EOL))
  {
    SegmentsLengths(carry, text);
    LastLengths(Segments(carry, text));
  }

  /** The handler invariant survives an accepted `append_line`. */
  lemma AppendValid(cached: seq<string>, carry: Option<string>, received: string, size: int, text: string,
                     parts: seq<string>, body: seq<string>, next: Option<string>)
    requires Terminated(cached) + CarryText(carry) == received && size == SumLengths(cached)
    requires parts == Segments(carry, text) && body == parts[..|parts| - 1] && next == CarryAfter(parts)
    ensures Terminated(cached + body) + CarryText(next) == received + text
    ensures size + SumLengths(body) == SumLengths(cached + body)
    ensures next.Some? ==> next.value != ""
  {
    AppendKeepsText(cached, carry, text);
    SumLengthsAppend(cached, body);
  }

  /** A handler (`HandlerAbstract`): the running count of cached characters,
      the optional limit on it and the partial line it keeps back. */
  class Handler {
    var size: int
    var limit: Option<int>
    const cache: LineCache
    /** `not_recorded` */
    var carry: Option<string>
    /** Every text this handler accepted, and the lines it put in the cache. */
    ghost var received: string
    ghost var cached: seq<string>

    /** The cached lines and the partial line make up the received text, and
        `size` counts the characters of the cached lines. */
    ghost predicate Valid()
      reads this
    {
      && Terminated(cached) + CarryText(carry) == received
      && size == SumLengths(cached)
      && (carry.Some? ==> carry.value != "")
    }

    constructor (cache: LineCache)
      ensures this.cache == cache && Valid()
      ensures size == 0 && limit == None && carry == None && received == ""
    {
      this.cache := cache;
      size := 0;
      limit := None;
      carry := None;
      received := "";
      cached := [];
    }

    method SetLimit(limit: int)
      requires Valid()
      modifies this
      ensures Valid() && this.limit == Some(limit)
      ensures size == old(size) && carry == old(carry) && received == old(received) && cached == old(cached)
    {
      this.limit := Some(limit);
    }

    /** `get_size`: the number of characters in the lines this handler has
        put in the cache, line ends not counted. */
    function GetSize(): (r: int)
      reads this
      requires Valid()
      ensures r == SumLengths(cached) && r >= 0
    {
      size
    }

    /** `append_line`: refused when the limit would be passed by the
        characters of `text` other than line ends; otherwise every complete
        line goes to the cache and the partial last one is kept back. */
    method AppendLine(text: string) returns (ok: bool)
      requires Valid()
      modifies this, cache
      ensures Valid()
      ensures !ok <==> limit.Some? && old(size) + (|text| - Count(text, EOL)) > limit.value
      ensures !ok ==> cache.lines == old(cache.lines) && size == old(size) && carry == old(carry)
                      && received == old(received)
      ensures ok ==> var parts := Segments(old(carry), text);
        && cache.lines == old(cache.lines) + parts[..|parts| - 1]
        && size == old(size) + SumLengths(parts[..|parts| - 1])
        && carry == CarryAfter(parts)
        && received == old(received) + text
      ensures limit == old(limit)
    {
      if limit.Some? && size + (|text| - Count(text, EOL)) > limit.value {
        return false;
      }
      Accept(text);
      return true;
    }

    /** The accepting path of `append_line`. */
    method Accept(text: string)
      requires Valid()
      modifies this, cache
      ensures Valid()
      ensures var parts := Segments(old(carry), text);
        && cache.lines == old(cache.lines) + parts[..|parts| - 1]
        && size == old(size) + SumLengths(parts[..|parts| - 1])
        && carry == CarryAfter(parts)
        && received == old(received) + text
      ensures limit == old(limit)
    {
      var parts := Segments(carry, text);
      ghost var body := parts[..|parts| - 1];
      AppendValid(cached, carry, received, size, text, parts, body, CarryAfter(parts));
      cached := cached + body;
      received := received + text;
      carry := None;
      CacheLines(parts);
      if |parts[|parts| - 1]| > 0 {
        carry := Some(parts[|parts| - 1]);
      }
      assert carry == CarryAfter(parts);
    }

    /** The loop of `append_line`: every part but the last is appended to the
        cache and counted in `size`. */
    method CacheLines(parts: seq<string>)
      requires |parts| >= 1
      modifies this, cache
      ensures cache.lines == old(cache.lines) + parts[..|parts| - 1]
      ensures size == old(size) + SumLengths(parts[..|parts| - 1])
      ensures carry == old(carry) && limit == old(limit)
      ensures cached == old(cached) && received == old(received)
    {
      var i := 0;
      while i < |parts| - 1
        invariant 0 <= i <= |parts| - 1
        invariant cache.lines == old(cache.lines) + parts[..i]
        invariant size == old(size) + SumLengths(parts[..i])
        invariant carry == old(carry) && limit == old(limit)
        invariant cached == old(cached) && received == old(received)
      {
        SumLengthsAppend(parts[..i], [parts[i]]);
        assert parts[..i + 1] == parts[..i] + [parts[i]];
        cache.lines := cache.lines + [parts[i]];
        size := size + |parts[i]|;
        i := i + 1;
      }
    }
  }

  /** What `backup` leaves in `cache_backup`: the backup extended with the
      cache, less as many of its first lines as the cache holds once it has
      reached `limit` lines. */
  function BackupStep(backup: seq<string>, lines: seq<string>, limit: int): (r: seq<string>)
    ensures |backup + lines| >= limit ==> r == (backup + lines)[|lines|..]
    ensures |backup + lines| < limit ==> r == backup + lines
  {
    var extended := backup + lines;
    if |extended| >= limit then extended[|lines|..] else extended
  }

  /** The backup is a window over everything backed up: it always ends with
      the newest lines, and once it reaches the limit its length stops
      growing. */
  lemma BackupWindow(backup: seq<string>, lines: seq<string>, limit: int)
    ensures var r := BackupStep(backup, lines, limit);
      && |r| == (if |backup| + |lines| >= limit then |backup| else |backup| + |lines|)
      && (|lines| <= |backup| ==> r[|r| - |lines|..] == lines)
      && r == (backup + lines)[|backup| + |lines| - |r|..]
  {
    var r := BackupStep(backup, lines, limit);
    if |backup| + |lines| >= limit && |lines| <= |backup| {
      assert r[|r| - |lines|..] == lines;
    }
  }

  /** `LogLib`: the shared cache, the backup of earlier caches and the
      handlers feeding the cache. */
  class LogLib {
    const cache: LineCache
    var backup: seq<string>
    var handlers: seq<Handler>

    /** Every handler appends to this object's cache. */
    ghost predicate Valid()
      reads this, set i | 0 <= i < |handlers| :: handlers[i]
    {
      forall i :: 0 <= i < |handlers| ==> handlers[i].cache == cache
    }

    constructor ()
      ensures Valid() && fresh(cache) && cache.lines == [] && backup == [] && handlers == []
    {
      cache := new LineCache();
      backup := [];
      handlers := [];
    }

    /** The bookkeeping shared by `add_tcp_handler`, `add_serial_handler` and
        `add_input_handler`: a new handler on the shared cache is added. */
    method AddHandler() returns (h: Handler)
      requires Valid()
      modifies this
      ensures Valid() && fresh(h) && h.Valid() && h.cache == cache && h.size == 0
      ensures handlers == old(handlers) + [h] && backup == old(backup)
    {
      h := new Handler(cache);
      handlers := handlers + [h];
    }

    /** `clear`: the cache is emptied in place, so the handlers see it too. */
    method Clear()
      modifies cache
      ensures cache.lines == []
    {
      cache.lines := [];
    }

    /** `backup` */
    method Backup(limit: int) returns (n: int)
      modifies this
      ensures backup == BackupStep(old(backup), cache.lines, limit) && n == |backup|
      ensures handlers == old(handlers)
    {
      backup := backup + cache.lines;
      if |backup| >= limit {
        backup := backup[|cache.lines|..];
      }
      n := |backup|;
    }

    /** `dump`: the cached lines joined with line ends. Reading the dump back
        line by line gives the cached lines. */
    function Dump(): (r: string)
      reads this, cache
      ensures cache.lines == [] ==> r == ""
      ensures |cache.lines| >= 1 && (forall i :: 0 <= i < |cache.lines| ==> EOL !in cache.lines[i])
              ==> Split(r, EOL) == cache.lines
    {
      if |cache.lines| >= 1 && (forall i :: 0 <= i < |cache.lines| ==> EOL !in cache.lines[i]) then
        SplitJoin(cache.lines, EOL);
        Join(cache.lines, EOL)
      else Join(cache.lines, EOL)
    }

    /** `get_size`: the sizes of all handlers added up. */
    method GetSize() returns (total: int)
      ensures total == TotalSize(handlers)
    {
      total := 0;
      var i := 0;
      while i < |handlers|
        invariant 0 <= i <= |handlers|
        invariant total == TotalSize(handlers[..i])
      {
        assert handlers[..i + 1][..i] == handlers[..i];
        total := total + handlers[i].size;
        i := i + 1;
      }
      assert handlers[..i] == handlers;
    }
  }

  /** The sum of the handlers' sizes. */
  function TotalSize(hs: seq<Handler>): (r: int)
    reads set i | 0 <= i < |hs| :: hs[i]
    ensures (forall i :: 0 <= i < |hs| ==> hs[i].size >= 0) ==> r >= 0
    ensures (forall i :: 0 <= i < |hs| ==> hs[i].size == 0) ==> r == 0
    decreases |hs|
  {
    if hs == [] then 0
    else
      assert forall i :: 0 <= i < |hs| - 1 ==> hs[..|hs| - 1][i] == hs[i];
      TotalSize(hs[..|hs| - 1]) + hs[|hs| - 1].size
  }

  /** With every handler in its invariant, the total is the number of
      characters the handlers have cached, and so never negative. */
  lemma {:induction false} TotalSizeCounts(hs: seq<Handler>)
    requires forall i :: 0 <= i < |hs| ==> hs[i].Valid()
    ensures TotalSize(hs) >= 0
    decreases |hs|
  {
    if hs != [] {
      var init := hs[..|hs| - 1];
      assert forall i :: 0 <= i < |init| ==> init[i] == hs[i];
      TotalSizeCounts(init);
    }
  }
}
