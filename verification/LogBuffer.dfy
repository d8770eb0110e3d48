/** The bounded log buffer of promolog.go. */
module LogBuffer {
  import opened Types
  import opened Text
  import opened Sequences

  /** The synthetic entry that stands for the dropped ones. */
  function Marker(now: Time, elided: nat, limit: nat): Entry {
    Entry(now, "WARN",
          "promolog: " + Decimal(elided) + " log entries elided (buffer limit " + Decimal(limit) + ")", None)
  }

  /** What a buffer with the given limit shows of a whole history; limit 0 is no limit. */
  function View(limit: nat, history: seq<Entry>, now: Time): seq<Entry> {
    if limit == 0 || |history| <= limit then history
    else
      history[..limit / 2] + [Marker(now, |history| - limit, limit)] + history[|history| - (limit - limit / 2)..]
  }

  /** The first half of the limit from the front of the history, one entry that says how many are gone
      and what the limit is, and the other half from the back. */
  ghost predicate ShowsElision(limit: nat, history: seq<Entry>, now: Time, shown: seq<Entry>)
    requires 0 < limit < |history|
  {
    var h, gone := limit / 2, |history| - limit;
    && |shown| == limit + 1 && shown[..h] == history[..h] && shown[h + 1..] == history[h + gone..]
    && shown[h].time == now && shown[h].level == "WARN" && shown[h].attrs == None
    && shown[h].message == "promolog: " + Decimal(gone) + " log entries elided (buffer limit " + Decimal(limit) + ")"
  }

  lemma ViewShowsElision(limit: nat, history: seq<Entry>, now: Time)
    requires 0 < limit < |history|
    ensures ShowsElision(limit, history, now, View(limit, history, now))
  {
  }

  /** How a history is kept in a head of at most h and a tail of at most t entries. */
  ghost predicate Split(h: nat, t: nat, history: seq<Entry>, head: seq<Entry>, tail: seq<Entry>, elided: nat) {
    if |history| <= h then head == history && tail == [] && elided == 0
    else if |history| <= h + t then head == history[..h] && tail == history[h..] && elided == 0
    else head == history[..h] && tail == history[|history| - t..] && elided == |history| - h - t
  }

  lemma SplitStep(h: nat, t: nat, history: seq<Entry>, head: seq<Entry>, tail: seq<Entry>, elided: nat, e: Entry)
    requires Split(h, t, history, head, tail, elided) && t > 0
    ensures |head| <= h && |tail| <= t && |history| == |head| + |tail| + elided
    ensures |head| < h ==> Split(h, t, history + [e], head + [e], tail, elided)
    ensures |head| == h && |tail| < t ==> Split(h, t, history + [e], head, tail + [e], elided)
    ensures |head| == h && |tail| == t ==> Split(h, t, history + [e], head, tail[1..] + [e], elided + 1)
  {
  }

  class Buffer {
    const limit: nat
    var entries: seq<Entry>
    var head: seq<Entry>
    const tail: array<Entry>
    var tailLen: nat
    var total: nat
    var elided: nat
    var tags: Option<Tags>
    var requestBody: Bytes
    var responseBody: Bytes
    /** Everything that was ever appended. */
    ghost var history: seq<Entry>

    ghost predicate Valid()
      reads this, tail
    {
      if limit == 0 then
        entries == history && head == [] && tailLen == 0 && total == 0 && elided == 0
      else
        && entries == [] && tail.Length == limit - limit / 2 && tailLen <= tail.Length
        && Split(limit / 2, tail.Length, history, head, tail[..tailLen], elided)
        && total == |history|
    }

    /** `NewBuffer`; a negative limit means none. */
    constructor (requested: int)
      ensures Valid() && history == [] && fresh(tail)
      ensures limit == if requested < 0 then 0 else requested
      ensures tags == None && requestBody == responseBody == []
    {
      var n: nat := if requested < 0 then 0 else requested;
      limit := n;
      tail := new Entry[n - n / 2];
      entries, head, tailLen, total, elided := [], [], 0, 0, 0;
      tags, requestBody, responseBody := None, [], [];
      history := [];
    }

    method Append(e: Entry)
      requires Valid()
      modifies this`entries, this`head, this`tailLen, this`total, this`elided, this`history, tail
      ensures Valid() && history == old(history) + [e]
    {
      if limit == 0 {
        entries := entries + [e];
        history := history + [e];
        return;
      }
      SplitStep(limit / 2, tail.Length, history, head, tail[..tailLen], elided, e);
      history := history + [e];
      total := total + 1;
      var headSize := limit / 2;
      if |head| < headSize {
        head := head + [e];
        return;
      }
      AppendToTail(e);
    }

    /** The second half of Append, when the head is full. */
    method AppendToTail(e: Entry)
      requires limit > 0 && tail.Length == limit - limit / 2 && tailLen <= tail.Length
      modifies this`tailLen, this`elided, tail
      ensures tailLen == if old(tailLen) < tail.Length then old(tailLen) + 1 else old(tailLen)
      ensures elided == if old(tailLen) < tail.Length then old(elided) else old(elided) + 1
      ensures tail[..tailLen] == (if old(tailLen) < tail.Length then old(tail[..tailLen]) else old(tail[..tailLen])[1..]) + [e]
    {
      var tailSize := limit - limit / 2;
      if tailLen < tailSize {
        tail[tailLen] := e;
        tailLen := tailLen + 1;
        assert tail[..tailLen] == old(tail[..tailLen]) + [e];
      } else {
        elided := elided + 1;
        ShiftLeft(tail);
        ghost var shifted := tail[..tailSize - 1];
        assert shifted == old(tail[..tailLen])[1..];
        tail[tailSize - 1] := e;
        assert tail[..tailLen] == shifted + [e];
      }
    }

    /** `Entries` shows the elided view of the whole history, in at most limit + 1 entries. */
    method Entries(now: Time) returns (copy: seq<Entry>)
      requires Valid()
      ensures copy == View(limit, history, now)
      ensures if limit == 0 || |history| <= limit then copy == history else ShowsElision(limit, history, now, copy)
    {
      if limit == 0 {
        return entries;
      }
      if |history| > limit {
        ViewShowsElision(limit, history, now);
      }
      copy := head;
      if elided > 0 {
        copy := copy + [Marker(now, elided, limit)];
      }
      copy := copy + tail[..tailLen];
      SplitIsViewed(limit, history, head, tail[..tailLen], elided, now);
    }

    method Tag(key: string, value: string)
      modifies this`tags
      ensures tags == Some((if old(tags).Some? then old(tags).value else map[])[key := value])
    {
      if tags.None? {
        tags := Some(map[]);
      }
      tags := Some(tags.value[key := value]);
    }

    /** A nil result stands for no tags at all. */
    method Tags() returns (copy: Option<Tags>)
      ensures copy == if tags == Some(map[]) then None else tags
      ensures copy != Some(map[])
    {
      if tags.None? || tags.value == map[] {
        return None;
      }
      return tags;
    }

    method SetRequestBody(body: Bytes)
      modifies this`requestBody
      ensures requestBody == body
    {
      requestBody := body;
    }

    method SetResponseBody(body: Bytes)
      modifies this`responseBody
      ensures responseBody == body
    {
      responseBody := body;
    }
  }

  lemma SplitIsViewed(limit: nat, history: seq<Entry>, head: seq<Entry>, tail: seq<Entry>, elided: nat, now: Time)
    requires limit > 0 && Split(limit / 2, limit - limit / 2, history, head, tail, elided)
    ensures View(limit, history, now) == head + (if elided > 0 then [Marker(now, elided, limit)] else []) + tail
    ensures |View(limit, history, now)| <= limit + 1
    ensures |head| == (if |history| < limit / 2 then |history| else limit / 2)
    ensures |tail| == (if |history| - |head| < limit - limit / 2 then |history| - |head| else limit - limit / 2)
    ensures elided == (if |history| > limit then |history| - limit else 0)
  {
  }

  /** `copy(a, a[1:])` */
  method ShiftLeft(a: array<Entry>)
    requires a.Length > 0
    modifies a
    ensures a[..a.Length - 1] == old(a[1..])
  {
    for i := 0 to a.Length - 1
      invariant a[..i] == old(a[1..i + 1])
      invariant a[i..] == old(a[i..])
    {
      a[i] := a[i + 1];
      assert a[..i + 1] == old(a[1..i + 1]) + [old(a[i + 1])];
    }
  }

  // ----- writers in parallel -----

  /** The buffer's lock puts all appends in one order, a list of writes each by some writer. */
  datatype Write = Write(writer: nat, entry: Entry)

  function EntriesOf(schedule: seq<Write>): seq<Entry> {
    seq(|schedule|, i requires 0 <= i < |schedule| => schedule[i].entry)
  }

  function By(writer: nat): Write -> bool {
    (x: Write) => x.writer == writer
  }

  /** The program of a writer: its own writes in its own order. */
  function Own(writer: nat, schedule: seq<Write>): seq<Write> {
    Filter(By(writer), schedule)
  }

  method Perform(b: Buffer, schedule: seq<Write>)
    requires b.Valid()
    modifies b`entries, b`head, b`tailLen, b`total, b`elided, b`history, b.tail
    ensures b.Valid() && b.history == old(b.history) + EntriesOf(schedule)
  {
    for i := 0 to |schedule|
      invariant b.Valid() && b.history == old(b.history) + EntriesOf(schedule[..i])
    {
      b.Append(schedule[i].entry);
      assert schedule[..i + 1] == schedule[..i] + [schedule[i]];
      assert EntriesOf(schedule[..i + 1]) == EntriesOf(schedule[..i]) + [schedule[i].entry];
    }
    assert schedule[..|schedule|] == schedule;
  }

  /** For every limit and every interleaving, the view is a front and a back of one linear history,
      and what survives of each writer is a beginning and an end of its own program, in order. */
  lemma SurvivorsKeepProgramOrder(limit: nat, schedule: seq<Write>, writer: nat, now: Time)
    requires 0 < limit < |schedule|
    ensures var n := |schedule|;
            var front, back := schedule[..limit / 2], schedule[n - (limit - limit / 2)..];
            var own := Own(writer, schedule);
            var kept, last := |Own(writer, front)|, |Own(writer, back)|;
            && View(limit, EntriesOf(schedule), now) == EntriesOf(front) + [Marker(now, n - limit, limit)] + EntriesOf(back)
            && kept + last <= |own|
            && Own(writer, front) == own[..kept] && Own(writer, back) == own[|own| - last..]
            && |own| - kept - last <= n - limit
  {
    var n := |schedule|;
    var front, back := schedule[..limit / 2], schedule[n - (limit - limit / 2)..];
    var middle := schedule[limit / 2..n - (limit - limit / 2)];
    assert schedule == front + middle + back;
    OwnOfParts(writer, front, middle, back);
    ViewOfParts(limit, schedule, now);
  }

  lemma ViewOfParts(limit: nat, schedule: seq<Write>, now: Time)
    requires 0 < limit < |schedule|
    ensures var n := |schedule|;
            View(limit, EntriesOf(schedule), now) ==
            EntriesOf(schedule[..limit / 2]) + [Marker(now, n - limit, limit)] + EntriesOf(schedule[n - (limit - limit / 2)..])
  {
  }

  lemma OwnOfParts(writer: nat, front: seq<Write>, middle: seq<Write>, back: seq<Write>)
    ensures var own := Own(writer, front + middle + back);
            var kept, last := |Own(writer, front)|, |Own(writer, back)|;
            && kept + last <= |own| <= kept + last + |middle|
            && Own(writer, front) == own[..kept] && Own(writer, back) == own[|own| - last..]
  {
    var a, m, b := Own(writer, front), Own(writer, middle), Own(writer, back);
    FilterConcat(By(writer), front + middle, back);
    FilterConcat(By(writer), front, middle);
    FilterSplits(By(writer), NotBy(writer), middle);
    var own := a + m + b;
    assert Own(writer, front + middle + back) == own;
    assert own[..|a|] == a && own[|own| - |b|..] == b;
  }

  function NotBy(writer: nat): Write -> bool {
    (x: Write) => x.writer != writer
  }
}
