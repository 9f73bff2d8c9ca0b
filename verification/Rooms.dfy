/** Event-room channel names of `realtime.py`: how they are printed and how a room name is parsed. */
module Rooms {
  import opened Wrappers
  import opened Decimal

  const EVENT_ROOM_PREFIX := "flock_os:event:"
  const BROADCAST := ":broadcast"
  const SHARD := ":shard:"

  datatype Segment = Broadcast | Shard(index: nat)

  datatype EventRoomRef = EventRoomRef(eventId: string, segment: Segment)

  function BroadcastChannel(eventId: string): string {
    EVENT_ROOM_PREFIX + eventId + BROADCAST
  }

  function ShardChannel(eventId: string, shard: int): string {
    EVENT_ROOM_PREFIX + eventId + SHARD + (if shard < 0 then "-" + Print(-shard) else Print(shard))
  }

  function Channel(room: EventRoomRef): string {
    match room.segment
    case Broadcast => BroadcastChannel(room.eventId)
    case Shard(k) => ShardChannel(room.eventId, k)
  }

  // ---- the room pattern ------------------------------------------------------------

  /** The text a `$` after it may end: everything, or everything but a final newline. */
  function BeforeEnd(s: string): string {
    if s != "" && s[|s| - 1] == '\n' then s[..|s| - 1] else s
  }

  /** What follows the event id: `:broadcast` or `:shard:` and digits, up to the end. */
  function SegmentAt(s: string): Option<Segment> {
    var t := BeforeEnd(s);
    if t == BROADCAST then Some(Broadcast)
    else if |t| > |SHARD| && t[..|SHARD|] == SHARD && AllDigits(t[|SHARD|..]) then Some(Shard(Read(t[|SHARD|..])))
    else None
  }

  /** Lazy matching: the event id is extended one character at a time, never over a newline. */
  function Extend(s: string, n: nat): Option<EventRoomRef>
    decreases |s| - n
  {
    if n >= |s| then None
    else if n > 0 && SegmentAt(s[n..]).Some? then Some(EventRoomRef(s[..n], SegmentAt(s[n..]).value))
    else if s[n] == '\n' then None
    else Extend(s, n + 1)
  }

  function ParseEventRoom(room: string): Option<EventRoomRef> {
    if EVENT_ROOM_PREFIX <= room then Extend(room[|EVENT_ROOM_PREFIX|..], 0) else None
  }

  // ---- what parsing finds ----------------------------------------------------------

  predicate OneLine(s: string) {
    '\n' !in s
  }

  /** An event id of length `n` followed by a segment to the end. */
  ghost predicate SplitsAt(s: string, n: nat) {
    0 < n < |s| && OneLine(s[..n]) && SegmentAt(s[n..]).Some?
  }

  lemma {:induction false} ExtendFindsFirst(s: string, n: nat, k: nat)
    requires n <= k && SplitsAt(s, k)
    requires forall m: nat {:trigger SplitsAt(s, m)} :: n <= m < k ==> !SplitsAt(s, m)
    ensures Extend(s, n) == Some(EventRoomRef(s[..k], SegmentAt(s[k..]).value))
    decreases k - n
  {
    if n < k {
      assert !SplitsAt(s, n);
      OneLinePrefix(s, n, k);
      assert s[n] == s[..k][n];
      ExtendFindsFirst(s, n + 1, k);
    }
  }

  lemma OneLinePrefix(s: string, n: nat, k: nat)
    requires n <= k <= |s| && OneLine(s[..k])
    ensures OneLine(s[..n])
  {
    assert s[..n] <= s[..k];
  }

  lemma {:induction false} ExtendFindsASplit(s: string, n: nat)
    requires n <= |s| && OneLine(s[..n]) && Extend(s, n).Some?
    ensures exists k: nat ::
              n <= k && SplitsAt(s, k) && Extend(s, n) == Some(EventRoomRef(s[..k], SegmentAt(s[k..]).value))
    decreases |s| - n
  {
    if n > 0 && SegmentAt(s[n..]).Some? {
      assert SplitsAt(s, n);
    } else {
      assert s[..n + 1] == s[..n] + [s[n]];
      ExtendFindsASplit(s, n + 1);
    }
  }

  /** A parsed event id is never empty and never spans lines. */
  lemma ParsedIdIsOneLine(room: string)
    requires ParseEventRoom(room).Some?
    ensures var id := ParseEventRoom(room).value.eventId; id != "" && OneLine(id)
  {
    var s := room[|EVENT_ROOM_PREFIX|..];
    assert s[..0] == "";
    ExtendFindsASplit(s, 0);
  }

  // ---- no earlier split ------------------------------------------------------------

  function SegmentText(segment: Segment): string {
    match segment
    case Broadcast => BROADCAST
    case Shard(k) => SHARD + Print(k)
  }

  lemma SegmentReadsBack(segment: Segment)
    ensures SegmentAt(SegmentText(segment)) == Some(segment)
  {
    var t := SegmentText(segment);
    match segment
    case Broadcast =>
    case Shard(k) =>
      assert t[|SHARD|..] == Print(k) && t[..|SHARD|] == SHARD;
      assert IsDigit(Print(k)[|Print(k)| - 1]) && t[|t| - 1] == Print(k)[|Print(k)| - 1];
      ReadPrint(k);
  }

  /** `:broadcast` after anything is no shorter segment. */
  lemma BroadcastEndsOnce(head: string)
    requires head != ""
    ensures SegmentAt(head + BROADCAST).None?
  {
    var t := head + BROADCAST;
    assert t[|t| - 1] == 't';
    if |t| > |SHARD| { assert t[|SHARD|..][|t| - |SHARD| - 1] == 't'; }
  }

  /** Neither is `:shard:` and digits: the last colon of the text would have to be a digit. */
  lemma ShardEndsOnce(head: string, digits: string)
    requires head != "" && digits != "" && AllDigits(digits)
    ensures SegmentAt(head + SHARD + digits).None?
  {
    var t := head + SHARD + digits;
    assert t[|t| - 1] == digits[|digits| - 1];
    assert IsDigit(t[|t| - 1]);
    var colon := |head| + |SHARD| - 1;
    assert t[colon] == SHARD[|SHARD| - 1] == ':';
    if t[..|SHARD|] == SHARD { assert t[|SHARD|..][colon - |SHARD|] == ':'; }
  }

  lemma SegmentEndsOnce(head: string, segment: Segment)
    requires head != ""
    ensures SegmentAt(head + SegmentText(segment)).None?
  {
    match segment
    case Broadcast => BroadcastEndsOnce(head);
    case Shard(k) =>
      ShardEndsOnce(head, Print(k));
      assert head + SegmentText(segment) == head + SHARD + Print(k);
  }

  // ---- round trip ------------------------------------------------------------------

  lemma ChannelText(room: EventRoomRef)
    ensures Channel(room) == EVENT_ROOM_PREFIX + (room.eventId + SegmentText(room.segment))
  {
  }

  lemma ParsePrefixed(s: string)
    ensures ParseEventRoom(EVENT_ROOM_PREFIX + s) == Extend(s, 0)
  {
    assert (EVENT_ROOM_PREFIX + s)[|EVENT_ROOM_PREFIX|..] == s;
  }

  lemma NoEarlierSplit(id: string, segment: Segment, m: nat)
    requires m < |id|
    ensures !SplitsAt(id + SegmentText(segment), m)
  {
    SegmentEndsOnce(id[m..], segment);
    DropInside(id, SegmentText(segment), m);
  }

  lemma DropInside(head: string, tail: string, m: nat)
    requires m < |head|
    ensures (head + tail)[m..] == head[m..] + tail
  {
  }

  lemma SplitsAfterId(id: string, segment: Segment)
    requires id != "" && OneLine(id)
    ensures Extend(id + SegmentText(segment), 0) == Some(EventRoomRef(id, segment))
  {
    var s := id + SegmentText(segment);
    SegmentReadsBack(segment);
    assert SegmentText(segment) != "";
    assert s[..|id|] == id && s[|id|..] == SegmentText(segment);
    assert SplitsAt(s, |id|);
    forall m: nat | 0 <= m < |id| ensures !SplitsAt(s, m) { NoEarlierSplit(id, segment, m); }
    ExtendFindsFirst(s, 0, |id|);
  }

  lemma ParseChannel(room: EventRoomRef)
    requires room.eventId != "" && OneLine(room.eventId)
    ensures ParseEventRoom(Channel(room)) == Some(room)
  {
    ChannelText(room);
    ParsePrefixed(room.eventId + SegmentText(room.segment));
    SplitsAfterId(room.eventId, room.segment);
  }

  /**
   * Parsing inverts printing, whatever `:broadcast` or `:shard:3` the event id contains, exactly when
   * the id is non-empty and holds no newline.
   */
  lemma RoomNameRoundTripsIff(room: EventRoomRef)
    ensures ParseEventRoom(Channel(room)) == Some(room) <==> room.eventId != "" && OneLine(room.eventId)
  {
    if room.eventId != "" && OneLine(room.eventId) { ParseChannel(room); }
    if ParseEventRoom(Channel(room)) == Some(room) { ParsedIdIsOneLine(Channel(room)); }
  }

  lemma SameTail(id: string, tail: string, id': string, tail': string)
    requires id + tail == id' + tail' && |id| <= |id'|
    ensures id' == id + id'[|id|..] && tail == id'[|id|..] + tail'
  {
    var s := id + tail;
    assert s[..|id|] == id && s[..|id'|] == id';
    assert s[|id|..] == tail && s[|id'|..] == tail';
  }

  /** Distinct (event, segment) pairs never share a room, for any event ids at all. */
  lemma RoomsAreDistinct(a: EventRoomRef, b: EventRoomRef)
    requires Channel(a) == Channel(b)
    ensures a == b
  {
    ChannelText(a);
    ChannelText(b);
    var s, s' := a.eventId + SegmentText(a.segment), b.eventId + SegmentText(b.segment);
    assert Channel(a)[|EVENT_ROOM_PREFIX|..] == s && Channel(b)[|EVENT_ROOM_PREFIX|..] == s';
    if |a.eventId| <= |b.eventId| { DistinctRooms(a, b); } else { DistinctRooms(b, a); }
  }

  lemma DistinctRooms(a: EventRoomRef, b: EventRoomRef)
    requires a.eventId + SegmentText(a.segment) == b.eventId + SegmentText(b.segment) && |a.eventId| <= |b.eventId|
    ensures a == b
  {
    var extra := b.eventId[|a.eventId|..];
    SameTail(a.eventId, SegmentText(a.segment), b.eventId, SegmentText(b.segment));
    SegmentReadsBack(a.segment);
    SegmentReadsBack(b.segment);
    if extra != "" {
      SegmentEndsOnce(extra, b.segment);
    } else {
      assert extra + SegmentText(b.segment) == SegmentText(b.segment);
    }
  }

  lemma NegativeText(eventId: string, digits: string)
    ensures EVENT_ROOM_PREFIX + eventId + SHARD + ("-" + digits) == EVENT_ROOM_PREFIX + (eventId + SHARD + "-" + digits)
  {
  }

  lemma NothingSplits(s: string, digits: string)
    requires digits != "" && AllDigits(digits)
    requires |s| >= |digits| + 1 && s[|s| - |digits|..] == digits && s[|s| - |digits| - 1] == '-'
    ensures Extend(s, 0).None?
  {
    if Extend(s, 0).Some? {
      assert s[..0] == "";
      ExtendFindsASplit(s, 0);
      var k: nat :| SplitsAt(s, k);
      MinusIsNoSegment(s, k, digits);
    }
  }

  /** A negative shard index prints to a name that no room pattern matches. */
  lemma NegativeShardIsRefused(eventId: string, shard: int)
    requires shard < 0
    ensures ParseEventRoom(ShardChannel(eventId, shard)).None?
  {
    var digits := Print(-shard);
    var s := eventId + SHARD + "-" + digits;
    NegativeText(eventId, digits);
    ParsePrefixed(s);
    assert s[|s| - |digits|..] == digits;
    NothingSplits(s, digits);
  }

  lemma MinusIsNoSegment(s: string, k: nat, digits: string)
    requires digits != "" && AllDigits(digits) && k < |s|
    requires |s| >= |digits| + 1 && s[|s| - |digits|..] == digits && s[|s| - |digits| - 1] == '-'
    ensures SegmentAt(s[k..]).None?
  {
    var t := s[k..];
    assert t[|t| - 1] == s[|s| - 1] == digits[|digits| - 1];
    var minus := |s| - |digits| - 1;
    if k <= minus {
      MinusInside(t, minus - k);
    } else {
      assert t[0] == digits[k - minus - 1];
      assert IsDigit(t[0]);
    }
  }

  lemma MinusInside(t: string, p: nat)
    requires p < |t| && t[p] == '-' && IsDigit(t[|t| - 1])
    ensures SegmentAt(t).None?
  {
    assert BeforeEnd(t) == t && t != BROADCAST;
    if p < |SHARD| {
      assert SHARD[p] != '-';
      assert |t| > |SHARD| ==> t[..|SHARD|][p] == '-';
    } else if p >= |SHARD| {
      assert t[|SHARD|..][p - |SHARD|] == '-';
    }
  }

  // ---- which names are rooms -------------------------------------------------------

  lemma ChannelNames(eventId: string, shard: nat)
    ensures BroadcastChannel(eventId) == "flock_os:event:" + eventId + ":broadcast"
    ensures ShardChannel(eventId, shard) == "flock_os:event:" + eventId + ":shard:" + Print(shard)
  {
  }

  /** The end of a room name, with or without a final newline, which the pattern lets pass. */
  ghost predicate NamesSegment(tail: string, segment: Segment) {
    match segment
    case Broadcast => tail == ":broadcast" || tail == ":broadcast\n"
    case Shard(k) =>
      exists digits :: digits != "" && AllDigits(digits) && Read(digits) == k
                       && (tail == ":shard:" + digits || tail == ":shard:" + digits + "\n")
  }

  lemma EndOfSegment(tail: string)
    requires tail != ""
    ensures tail == BeforeEnd(tail) || tail == BeforeEnd(tail) + "\n"
  {
  }

  lemma SegmentIsNamed(tail: string, segment: Segment)
    ensures SegmentAt(tail) == Some(segment) <==> NamesSegment(tail, segment)
  {
    var t := BeforeEnd(tail);
    if SegmentAt(tail) == Some(segment) {
      EndOfSegment(tail);
      if segment.Shard? {
        var digits := t[|SHARD|..];
        assert t == SHARD + digits && digits != "" && AllDigits(digits) && Read(digits) == segment.index;
        assert tail == ":shard:" + digits || tail == ":shard:" + digits + "\n";
      }
    }
    if NamesSegment(tail, segment) {
      match segment
      case Broadcast =>
      case Shard(k) =>
        var digits :| digits != "" && AllDigits(digits) && Read(digits) == k
                      && (tail == ":shard:" + digits || tail == ":shard:" + digits + "\n");
        assert IsDigit(digits[|digits| - 1]);
        assert t == SHARD + digits && t[..|SHARD|] == SHARD && t[|SHARD|..] == digits;
    }
  }

  /** A name of the room: the prefix, a non-empty id on one line, and the segment. */
  ghost predicate IsRoomName(room: string, id: string, segment: Segment) {
    exists tail :: room == EVENT_ROOM_PREFIX + id + tail && id != "" && OneLine(id) && NamesSegment(tail, segment)
  }

  lemma NamesRoom(room: string, id: string, tail: string, segment: Segment)
    requires room == EVENT_ROOM_PREFIX + id + tail && id != "" && OneLine(id) && NamesSegment(tail, segment)
    ensures IsRoomName(room, id, segment)
  {
  }

  lemma ParsedSplits(room: string) returns (k: nat)
    requires ParseEventRoom(room).Some?
    ensures |EVENT_ROOM_PREFIX| <= |room| && room == EVENT_ROOM_PREFIX + room[|EVENT_ROOM_PREFIX|..]
    ensures var s := room[|EVENT_ROOM_PREFIX|..];
            SplitsAt(s, k) && ParseEventRoom(room) == Some(EventRoomRef(s[..k], SegmentAt(s[k..]).value))
  {
    var s := room[|EVENT_ROOM_PREFIX|..];
    assert s[..0] == "";
    ExtendFindsASplit(s, 0);
    k :| SplitsAt(s, k) && Extend(s, 0) == Some(EventRoomRef(s[..k], SegmentAt(s[k..]).value));
  }

  lemma PrefixedSplit(room: string, s: string, k: nat)
    requires room == EVENT_ROOM_PREFIX + s && k <= |s|
    ensures room == EVENT_ROOM_PREFIX + s[..k] + s[k..]
  {
    assert s == s[..k] + s[k..];
  }

  /** A parsed room is one the name spells out, with the id and segment parsed. */
  lemma ParsedIsNamed(room: string)
    requires ParseEventRoom(room).Some?
    ensures IsRoomName(room, ParseEventRoom(room).value.eventId, ParseEventRoom(room).value.segment)
  {
    var k := ParsedSplits(room);
    var s := room[|EVENT_ROOM_PREFIX|..];
    var segment := SegmentAt(s[k..]).value;
    SegmentIsNamed(s[k..], segment);
    PrefixedSplit(room, s, k);
    NamesRoom(room, s[..k], s[k..], segment);
  }

  lemma {:induction false} SplitIsFound(s: string, n: nat, k: nat)
    requires n <= k && SplitsAt(s, k)
    ensures Extend(s, n).Some?
    decreases k - n
  {
    if n < k {
      assert s[n] == s[..k][n];
      SplitIsFound(s, n + 1, k);
    }
  }

  lemma NamedIsParsed(id: string, tail: string, segment: Segment)
    requires id != "" && OneLine(id) && NamesSegment(tail, segment)
    ensures ParseEventRoom(EVENT_ROOM_PREFIX + (id + tail)).Some?
  {
    var s := id + tail;
    SegmentIsNamed(tail, segment);
    assert s[..|id|] == id && s[|id|..] == tail;
    ParsePrefixed(s);
    assert SegmentAt("").None?;
    SplitIsFound(s, 0, |id|);
  }

  /** Exactly the names of rooms are parsed: everything else never becomes a subscription. */
  lemma ParsedIffNamed(room: string)
    ensures ParseEventRoom(room).Some? <==> exists id, segment :: IsRoomName(room, id, segment)
  {
    if ParseEventRoom(room).Some? { ParsedIsNamed(room); }
    if id, segment :| IsRoomName(room, id, segment) {
      var tail :| room == EVENT_ROOM_PREFIX + id + tail && id != "" && OneLine(id) && NamesSegment(tail, segment);
      assert room == EVENT_ROOM_PREFIX + (id + tail);
      NamedIsParsed(id, tail, segment);
    }
  }
}
