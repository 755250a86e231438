/** What survives a power cut: the firmware file and the break point file. */
module OtaStore {
  import opened BlockHash

  /** A byte of a C string or of a structure in memory. */
  type octet = c: char | c as int < 256 witness '\0'

  const VERSION_FIELD := 36
  const MD5SUM_FIELD := 33

  function Nuls(n: nat): (r: seq<octet>)
    ensures |r| == n && forall i :: 0 <= i < n ==> r[i] == '\0'
  {
    seq(n, _ => '\0')
  }

  type VersionField = s: seq<octet> | |s| == VERSION_FIELD witness Nuls(VERSION_FIELD)
  type Md5sumField = s: seq<octet> | |s| == MD5SUM_FIELD witness Nuls(MD5SUM_FIELD)

  /** The announced identity of a firmware; the strings are fields of fixed size. */
  datatype Info = Info(version: VersionField, file_size: uint32, md5sum: Md5sumField)

  datatype BreakPoint = BreakPoint(file_id: Info, downloaded_size: uint32)

  const ZERO_BREAK_POINT := BreakPoint(Info(Nuls(VERSION_FIELD), 0, Nuls(MD5SUM_FIELD)), 0)

  // ---- a break point as the bytes of its structure ----

  const SIZE_OFFSET := 76
  const STRUCT_SIZE := 80

  function OctetsOf(x: uint32): (r: seq<octet>)
    ensures |r| == 4
  {
    [(x % 0x100) as char, (x / 0x100 % 0x100) as char, (x / 0x1_0000 % 0x100) as char, (x / 0x100_0000) as char]
  }

  function ValueOf(s: seq<octet>): (x: uint32)
    requires |s| == 4
  {
    s[0] as int + 0x100 * s[1] as int + 0x1_0000 * s[2] as int + 0x100_0000 * s[3] as int
  }

  /** The structure in memory, whose file_id ends with three bytes of padding. */
  function Struct(bp: BreakPoint): (r: seq<octet>)
    ensures |r| == STRUCT_SIZE
  {
    bp.file_id.version + OctetsOf(bp.file_id.file_size) + bp.file_id.md5sum + Nuls(3) + OctetsOf(bp.downloaded_size)
  }

  function FromStruct(s: seq<octet>): BreakPoint
    requires |s| == STRUCT_SIZE
  {
    BreakPoint(Info(s[..36], ValueOf(s[36..40]), s[40..73]), ValueOf(s[SIZE_OFFSET..]))
  }

  /** What stands in memory after up to a structure of a file was read over `bp`. */
  function ReadOver(file: seq<octet>, bp: BreakPoint): BreakPoint {
    var n := if |file| < STRUCT_SIZE then |file| else STRUCT_SIZE;
    FromStruct(file[..n] + Struct(bp)[n..])
  }

  lemma WholeStruct(bp: BreakPoint)
    ensures Struct(bp)[..STRUCT_SIZE] == Struct(bp)
  {}

  /** What a boot, whose memory is zero, reads from the break point file. */
  function Recorded(record: seq<octet>): BreakPoint {
    ReadOver(record, ZERO_BREAK_POINT)
  }

  /** What the first n little-endian bytes of a number are worth. */
  function LowBytes(x: uint32, n: nat): nat
    requires n <= 4
  {
    x % [1, 0x100, 0x1_0000, 0x100_0000, TWO_32][n]
  }

  lemma ValueOfPrefix(x: uint32, n: nat)
    requires n <= 4
    ensures ValueOf(OctetsOf(x)[..n] + Nuls(4 - n)) == LowBytes(x, n)
  {
    assert x / 0x100 / 0x100 == x / 0x1_0000 && x / 0x1_0000 / 0x100 == x / 0x100_0000;
  }

  lemma ZeroStruct(i: nat)
    requires i < STRUCT_SIZE
    ensures Struct(ZERO_BREAK_POINT)[i] == '\0'
  {}

  /** The memory a first part of a structure is read into. */
  function TornMemory(whole: seq<octet>, n: nat): (r: seq<octet>)
    requires n <= |whole| == STRUCT_SIZE
    ensures |r| == STRUCT_SIZE
  {
    whole[..n] + Nuls(STRUCT_SIZE - n)
  }

  lemma ReadIsTornMemory(record: seq<octet>, whole: seq<octet>)
    requires |whole| == STRUCT_SIZE && record <= whole
    ensures Recorded(record) == FromStruct(TornMemory(whole, |record|))
  {
    hide Struct, FromStruct;
    var n := |record|;
    assert record[..n] == record == whole[..n];
    forall i | 0 <= i < STRUCT_SIZE - n ensures Struct(ZERO_BREAK_POINT)[n..][i] == Nuls(STRUCT_SIZE - n)[i] {
      ZeroStruct(n + i);
    }
    assert Struct(ZERO_BREAK_POINT)[n..] == Nuls(STRUCT_SIZE - n);
  }

  /** A stretch of the torn memory: the bytes of it that made it, then zeros. */
  lemma TornField(whole: seq<octet>, n: nat, from: nat, to: nat)
    requires n <= |whole| == STRUCT_SIZE && from <= to <= STRUCT_SIZE
    ensures var kept := if n <= from then 0 else if n <= to then n - from else to - from;
            TornMemory(whole, n)[from..to] == whole[from..to][..kept] + Nuls(to - from - kept)
  {}

  lemma FieldsOfStruct(bp: BreakPoint)
    ensures Struct(bp)[..36] == bp.file_id.version && Struct(bp)[36..40] == OctetsOf(bp.file_id.file_size)
    ensures Struct(bp)[40..73] == bp.file_id.md5sum && Struct(bp)[SIZE_OFFSET..] == OctetsOf(bp.downloaded_size)
  {}

  lemma TornSize(bp: BreakPoint, n: nat)
    requires n <= STRUCT_SIZE
    ensures FromStruct(TornMemory(Struct(bp), n)).downloaded_size
         == if n <= SIZE_OFFSET then 0 else LowBytes(bp.downloaded_size, n - SIZE_OFFSET)
  {
    hide Struct, TornMemory, OctetsOf, ValueOf;
    var kept := if n <= SIZE_OFFSET then 0 else n - SIZE_OFFSET;
    FieldsOfStruct(bp);
    TornField(Struct(bp), n, SIZE_OFFSET, STRUCT_SIZE);
    assert TornMemory(Struct(bp), n)[SIZE_OFFSET..STRUCT_SIZE] == TornMemory(Struct(bp), n)[SIZE_OFFSET..];
    assert Struct(bp)[SIZE_OFFSET..STRUCT_SIZE] == Struct(bp)[SIZE_OFFSET..];
    ValueOfPrefix(bp.downloaded_size, kept);
  }

  lemma TornIdentity(bp: BreakPoint, n: nat)
    requires SIZE_OFFSET <= n <= STRUCT_SIZE
    ensures FromStruct(TornMemory(Struct(bp), n)).file_id == bp.file_id
  {
    hide Struct, TornMemory, OctetsOf, ValueOf;
    FieldsOfStruct(bp);
    TornField(Struct(bp), n, 0, 36);
    TornField(Struct(bp), n, 36, 40);
    TornField(Struct(bp), n, 40, 73);
    ValueOfPrefix(bp.file_id.file_size, 4);
    assert OctetsOf(bp.file_id.file_size)[..4] + Nuls(0) == Struct(bp)[36..40] + Nuls(0);
  }

  /** A record cut short anywhere, read back: the size counts the bytes of it that made it, so it
      never exceeds the one being written, and unless it is 0 the identity made it whole. */
  lemma TornRecord(record: seq<octet>, bp: BreakPoint)
    requires record <= Struct(bp)
    ensures Recorded(record).downloaded_size
         == if |record| <= SIZE_OFFSET then 0 else LowBytes(bp.downloaded_size, |record| - SIZE_OFFSET)
    ensures Recorded(record).downloaded_size <= bp.downloaded_size
    ensures |record| >= SIZE_OFFSET ==> Recorded(record).file_id == bp.file_id
    ensures record == Struct(bp) ==> Recorded(record) == bp
  {
    hide Struct, FromStruct, TornMemory, ReadOver;
    var n := |record|;
    ReadIsTornMemory(record, Struct(bp));
    TornSize(bp, n);
    if n >= SIZE_OFFSET { TornIdentity(bp, n); }
  }

  /** What the world does to one file or network operation. A power cut may leave the first `done` steps of the
      operation behind. A write may be cut short with the power on: the rest is lost, and the program is not told. */
  datatype Event = PowerCut(done: nat) | Failed | Went(n: nat) | Short(kept: nat)

  /** The outcome of an operation for the program: a return code, unless the power went. */
  datatype Outcome = Off | Rc(rc: int)

  function ReadOutcome(e: Event): Outcome {
    match e
    case PowerCut(_) => Off
    case Failed => Rc(-1)
    case Went(_) => Rc(0)
    case Short(_) => Rc(0)
  }

  /** How many of n bytes a write that returns has written. */
  function Written(e: Event, n: nat): (k: nat)
    ensures k <= n
  {
    if e.Short? && e.kept < n then e.kept else n
  }

  predicate NoShort(events: seq<Event>) {
    forall e :: e in events ==> !e.Short?
  }

  /** What can be left of a history: no event is invented. */
  predicate Rest(later: seq<Event>, earlier: seq<Event>) {
    |later| <= |earlier| && forall e :: e in later ==> e in earlier
  }

  lemma RestNoShort(later: seq<Event>, earlier: seq<Event>)
    requires Rest(later, earlier)
    ensures NoShort(earlier) ==> NoShort(later)
  {}

  /** What happens next; when the history runs out the power goes. */
  function First(events: seq<Event>): Event {
    if events == [] then PowerCut(0) else events[0]
  }

  function After(events: seq<Event>): seq<Event> {
    if events == [] then [] else events[1..]
  }

  /** The rest of the history of this boot. */
  class Script {
    var events: seq<Event>

    constructor (events: seq<Event>)
      ensures this.events == events
    {
      this.events := events;
    }

    method Next() returns (e: Event)
      modifies this
      ensures e == First(old(events)) && events == After(old(events))
      ensures e.PowerCut? || |events| < |old(events)|
      ensures Rest(events, old(events))
    {
      if |events| == 0 {
        return PowerCut(0);
      }
      e := events[0];
      events := events[1..];
    }
  }

  /** A file after `data` is written at an offset not past its end. */
  function Overwrite(file: seq<bv8>, offset: nat, data: seq<bv8>): (r: seq<bv8>)
    ensures offset <= |file| ==> |r| >= |file| && |r| >= offset + |data|
  {
    var base := if offset <= |file| then file else file + Zeros(offset - |file|);
    base[..offset] + data + (if offset + |data| <= |base| then base[offset + |data|..] else [])
  }

  lemma OverwriteExtendsPrefix(file: seq<bv8>, offset: nat, data: seq<bv8>)
    requires offset <= |file|
    ensures Overwrite(file, offset, data)[..offset + |data|] == file[..offset] + data
  {}

  /** Bytes of `img` written at their own offset keep every prefix that already was one of `img`. */
  lemma OverwriteKeepsImage(file: seq<bv8>, offset: nat, data: seq<bv8>, img: seq<bv8>, s: nat)
    requires offset <= |file| && offset + |data| <= |img| && data == img[offset..offset + |data|]
    requires s <= |file| && s <= |img| && file[..s] == img[..s]
    ensures Overwrite(file, offset, data)[..s] == img[..s]
  {
    var r := Overwrite(file, offset, data);
    forall i | 0 <= i < s ensures r[i] == img[i] {
      assert file[i] == file[..s][i] && img[i] == img[..s][i];
    }
  }

  class Store {
    var firmware: seq<bv8>
    var record: seq<octet>
    const script: Script

    // whether every write to the firmware file that returned has written all its bytes; no program sees it
    var whole: bool

    constructor (script: Script, firmware: seq<bv8>, record: seq<octet>, whole: bool)
      ensures this.script == script && this.firmware == firmware && this.record == record && this.whole == whole
    {
      this.script, this.firmware, this.record, this.whole := script, firmware, record, whole;
    }

    /** Reads the break point file over `bp`; a missing file counts as an empty one. */
    method BreakPointRead(bp: BreakPoint) returns (o: Outcome, r: BreakPoint)
      modifies script
      ensures Rest(script.events, old(script.events)) && script.events == After(old(script.events))
      ensures o == ReadOutcome(First(old(script.events)))
      ensures o == Rc(0) ==> r == ReadOver(record, bp)
    {
      var e := script.Next();
      r := bp;
      match e
      case PowerCut(_) => o := Off;
      case Failed => o := Rc(-1);
      case _ =>
        o := Rc(0);
        r := ReadOver(record, bp);
    }

    /** Truncates the break point file, then writes the structure; a power cut may leave the old file
        or any first part of the new one. */
    method BreakPointWrite(bp: BreakPoint) returns (o: Outcome)
      modifies this`record, script
      ensures Rest(script.events, old(script.events)) && script.events == After(old(script.events))
      ensures o == ReadOutcome(First(old(script.events)))
      ensures o == Rc(-1) ==> record == old(record)
      ensures o == Rc(0) ==> record == Struct(bp)[..Written(First(old(script.events)), STRUCT_SIZE)]
      ensures o == Off ==> record == old(record) || record <= Struct(bp)
    {
      var e := script.Next();
      match e
      case PowerCut(done) =>
        o := Off;
        if done > 0 {
          var k := if done - 1 <= STRUCT_SIZE then done - 1 else STRUCT_SIZE;
          record := Struct(bp)[..k];
        }
      case Failed => o := Rc(-1);
      case _ =>
        o := Rc(0);
        record := Struct(bp)[..Written(e, STRUCT_SIZE)];
    }

    /** Reads up to `len` bytes at an offset. */
    method FirmwareRead(len: nat, offset: nat) returns (o: Outcome, data: seq<bv8>)
      modifies script
      ensures Rest(script.events, old(script.events)) && script.events == After(old(script.events))
      ensures o.Rc? ==> o.rc >= -1
      ensures o == Off <==> First(old(script.events)).PowerCut?
      ensures o == Rc(-1) <==> First(old(script.events)).Failed?
      ensures |data| <= len
      ensures o.Rc? && o.rc >= 0 && offset + len <= |firmware| ==> data == firmware[offset..offset + len]
    {
      var e := script.Next();
      data := [];
      match e
      case PowerCut(_) => o := Off;
      case Failed => o := Rc(-1);
      case _ =>
        var from := if offset <= |firmware| then offset else |firmware|;
        var to := if offset + len <= |firmware| then offset + len else |firmware|;
        data := firmware[from..to];
        o := Rc(|data|);
    }

    /** Writes at an offset; a power cut may leave only the first bytes written, and so may the file system,
        whose answer is not looked at. */
    method FirmwareWrite(data: seq<bv8>, offset: nat) returns (o: Outcome)
      modifies this`firmware, this`whole, script
      ensures Rest(script.events, old(script.events)) && script.events == After(old(script.events))
      ensures o == ReadOutcome(First(old(script.events)))
      ensures o == Rc(-1) ==> firmware == old(firmware)
      ensures o == Rc(0) ==>
                var k := Written(First(old(script.events)), |data|);
                firmware == Overwrite(old(firmware), offset, data[..k]) && whole == (old(whole) && k == |data|)
      ensures o != Rc(0) ==> whole == old(whole)
      ensures o == Off ==> exists k | 0 <= k <= |data| :: firmware == Overwrite(old(firmware), offset, data[..k])
    {
      var e := script.Next();
      match e
      case PowerCut(done) =>
        o := Off;
        var k := if done <= |data| then done else |data|;
        assert 0 <= k <= |data|;
        firmware := Overwrite(firmware, offset, data[..k]);
      case Failed => o := Rc(-1);
      case _ =>
        o := Rc(0);
        var k := Written(e, |data|);
        firmware, whole := Overwrite(firmware, offset, data[..k]), whole && k == |data|;
    }
  }
}

/** The OTA callbacks over a generic download driver. */
module Ota {
  import opened BlockHash
  import opened Common
  import opened Hex
  import opened OtaStore
  import Md5Spec
  import Md5

  const OTA_HTTP_BUF_SIZE := 1024

  datatype Status = Success | BreakPointFailed | DataDownloadFailed | NetworkFailed

  /** What the device tells the cloud when a download ends. */
  datatype Report = UpgradeSuccess | Md5NotMatch | DownloadTimeout | UpgradeFail

  const MAX_SIZE_OF_FW_VERSION := 32

  predicate SameIdentity(a: Info, b: Info) {
    && Text(a.version, MAX_SIZE_OF_FW_VERSION) == Text(b.version, MAX_SIZE_OF_FW_VERSION)
    && a.file_size == b.file_size
    && Text(a.md5sum, 32) == Text(b.md5sum, 32)
  }

  /** Whether a break point is resumed for an announced firmware. */
  predicate Accepts(bp: BreakPoint, now: Info) {
    SameIdentity(bp.file_id, now) && bp.downloaded_size <= now.file_size
  }

  /** Where a download of `now` picks up, going by the break point file. */
  function ResumePoint(record: seq<octet>, now: Info): nat {
    if Accepts(Recorded(record), now) then Recorded(record).downloaded_size else 0
  }

  /** The recorded size never runs ahead of the firmware file. */
  predicate Backed(firmware: seq<bv8>, record: seq<octet>) {
    Recorded(record).downloaded_size <= |firmware|
  }

  /** If the break point would be resumed, the bytes it vouches for are the image's. */
  predicate Faithful(firmware: seq<bv8>, record: seq<octet>, now: Info, img: seq<bv8>) {
    && Backed(firmware, record)
    && ResumePoint(record, now) <= |img|
    && firmware[..ResumePoint(record, now)] == img[..ResumePoint(record, now)]
  }

  /** A record cut short is refused, or resumes no further than what it was to record, and then only
      for the identity it was to record. */
  lemma TornResumesNoFurther(record: seq<octet>, bp: BreakPoint, now: Info)
    requires record <= Struct(bp)
    ensures ResumePoint(record, now) <= bp.downloaded_size
    ensures ResumePoint(record, now) > 0 ==> Accepts(Recorded(record), now) && Recorded(record).file_id == bp.file_id
    ensures record == Struct(bp) ==> ResumePoint(record, now) == if Accepts(bp, now) then bp.downloaded_size else 0
  {
    hide Recorded, Struct;
    TornRecord(record, bp);
  }

  /** A record cut short keeps what the whole one would: its bytes are on the store before it. */
  lemma TornKeepsFaithful(firmware: seq<bv8>, record: seq<octet>, bp: BreakPoint, now: Info, img: seq<bv8>)
    requires record <= Struct(bp) && bp.downloaded_size <= |firmware|
    ensures Backed(firmware, record)
    ensures bp.downloaded_size <= |img| && firmware[..bp.downloaded_size] == img[..bp.downloaded_size] ==>
              Faithful(firmware, record, now, img)
  {
    hide Recorded, Struct;
    TornRecord(record, bp);
    TornResumesNoFurther(record, bp, now);
    var n, d := ResumePoint(record, now), bp.downloaded_size;
    if d <= |img| && firmware[..d] == img[..d] {
      assert firmware[..n] == firmware[..d][..n] && img[..n] == img[..d][..n];
    }
  }

  // ---- what an abandoned restore leaves in the sum ----

  /** Whether a read goes through. */
  predicate Goes(e: Event) {
    e.Went? || e.Short?
  }

  /** How many bytes were hashed when a read of a restore of `size` more bytes fails, if one does. */
  function FailedAt(events: seq<Event>, size: nat, done: nat): (r: Option<nat>)
    ensures r.Some? ==> done <= r.value < done + size
    decreases size
  {
    if size == 0 then None
    else match First(events)
      case PowerCut(_) => None
      case Failed => Some(done)
      case _ =>
        var rlen := if size > OTA_HTTP_BUF_SIZE then OTA_HTTP_BUF_SIZE else size;
        FailedAt(After(events), size - rlen, done + rlen)
  }

  lemma FailedAtStep(events: seq<Event>, size: nat, done: nat)
    requires size > 0
    ensures First(events).Failed? ==> FailedAt(events, size, done) == Some(done)
    ensures Goes(First(events)) ==>
              var rlen := if size > OTA_HTTP_BUF_SIZE then OTA_HTTP_BUF_SIZE else size;
              FailedAt(events, size, done) == FailedAt(After(events), size - rlen, done + rlen)
  {}

  predicate AllWent(events: seq<Event>) {
    forall e :: e in events ==> Goes(e)
  }

  lemma AllWentCons(events: seq<Event>, i: nat)
    requires 0 < i <= |events|
    ensures AllWent(events[..i]) <==> Goes(events[0]) && AllWent(events[1..][..i - 1])
  {
    assert events[..i] == [events[0]] + events[1..][..i - 1];
    if AllWent(events[..i]) {
      assert events[..i][0] == events[0];
      assert forall e :: e in events[1..][..i - 1] ==> e in events[..i];
    }
  }

  lemma {:induction false} FailedAtBlockFrom(events: seq<Event>, size: nat, done: nat, i: nat)
    ensures FailedAt(events, size, done) == Some(done + OTA_HTTP_BUF_SIZE * i) <==>
              OTA_HTTP_BUF_SIZE * i < size && i < |events| && events[i].Failed? && AllWent(events[..i])
    decreases i
  {
    if i > 0 && size > OTA_HTTP_BUF_SIZE && Goes(First(events)) {
      FailedAtBlockFrom(events[1..], size - OTA_HTTP_BUF_SIZE, done + OTA_HTTP_BUF_SIZE, i - 1);
      if i <= |events| {
        AllWentCons(events, i);
      }
    } else if i > 0 && i < |events| {
      assert events[..i][0] == events[0];
    }
  }

  lemma {:induction false} FailedAtIsBlock(events: seq<Event>, size: nat, done: nat)
    ensures var r := FailedAt(events, size, done); r.Some? ==> (r.value - done) % OTA_HTTP_BUF_SIZE == 0
    decreases size
  {
    if size > 0 && Goes(First(events)) {
      var rlen := if size > OTA_HTTP_BUF_SIZE then OTA_HTTP_BUF_SIZE else size;
      FailedAtIsBlock(After(events), size - rlen, done + rlen);
    }
  }

  /** A restore gives up with k bytes hashed exactly when k is a multiple of the buffer size below the recorded
      size, and the read there is the first that does not go through, and fails. */
  lemma FailedAtBlock(events: seq<Event>, size: nat, k: nat)
    ensures FailedAt(events, size, 0) == Some(k) <==>
              var i := k / OTA_HTTP_BUF_SIZE;
              && k % OTA_HTTP_BUF_SIZE == 0 && k < size
              && i < |events| && events[i].Failed? && AllWent(events[..i])
  {
    hide FailedAt, AllWent;
    FailedAtIsBlock(events, size, 0);
    if k % OTA_HTTP_BUF_SIZE == 0 {
      FailedAtBlockFrom(events, size, 0, k / OTA_HTTP_BUF_SIZE);
    }
  }

  /** The bytes of the store, as a boot with this history finds it, that its restore hashes before it
      gives up; none unless a read fails. */
  function Abandoned(firmware: seq<bv8>, record: seq<octet>, now: Info, events: seq<Event>): (r: seq<bv8>)
    requires Backed(firmware, record)
    ensures |r| <= now.file_size
  {
    match FailedAt(After(events), ResumePoint(record, now), 0)
    case None => []
    case Some(k) => firmware[..k]
  }

  /** The record is read, the first kilobyte of two is hashed, and the second read fails. */
  lemma OneKilobyteAbandoned(firmware: seq<bv8>, now: Info, more: seq<Event>)
    requires |firmware| >= 2048 && now.file_size >= 2048
    ensures var record, events := Struct(BreakPoint(now, 2048)), [Went(0), Went(0), Failed] + more;
            Backed(firmware, record) && Abandoned(firmware, record, now, events) == firmware[..1024]
  {
    hide Struct, Recorded;
    var bp := BreakPoint(now, 2048);
    var events := [Went(0), Went(0), Failed] + more;
    TornRecord(Struct(bp), bp);
    var rest := After(events);
    assert rest[0] == Went(0) && rest[1] == Failed && rest[..1] == [Went(0)];
    FailedAtBlock(rest, 2048, 1024);
  }

  /** Where a boot with this history starts to download. */
  function StartsAt(record: seq<octet>, now: Info, events: seq<Event>): (d: nat)
    ensures d <= ResumePoint(record, now)
  {
    if FailedAt(After(events), ResumePoint(record, now), 0).Some? then 0 else ResumePoint(record, now)
  }

  /** What a boot that concludes has hashed: what its restore abandoned, what it restored, and what it fetched. */
  function Hashed(firmware: seq<bv8>, record: seq<octet>, now: Info, events: seq<Event>, served: seq<bv8>): seq<bv8>
    requires Backed(firmware, record) && |served| == now.file_size
  {
    var d := StartsAt(record, now, events);
    Abandoned(firmware, record, now, events) + firmware[..d] + served[d..]
  }

  /** Whether a digest is the announced one, whose letters may be in either case. */
  ghost predicate DigestAnnounced(m: seq<bv8>, md5sum: Md5sumField)
  {
    HexOf(Md5Spec.Digest(m)) == Lower(md5sum)[..32]
  }

  /** Writing image bytes at their own offset keeps every vouched prefix, and the file's own. */
  lemma KeepsFaithful(file: seq<bv8>, record: seq<octet>, now: Info, img: seq<bv8>, d: nat, data: seq<bv8>)
    requires d <= |file| && d + |data| <= |img| && data == img[d..d + |data|] && Backed(file, record)
    ensures Backed(Overwrite(file, d, data), record)
    ensures Overwrite(file, d, data)[..d + |data|] == file[..d] + data
    ensures file[..d] == img[..d] && Faithful(file, record, now, img) ==>
              && Faithful(Overwrite(file, d, data), record, now, img)
              && Overwrite(file, d, data)[..d + |data|] == img[..d + |data|]
  {
    hide Recorded, Overwrite;
    OverwriteExtendsPrefix(file, d, data);
    if file[..d] == img[..d] && Faithful(file, record, now, img) {
      assert img[..d] + data == img[..d + |data|];
      OverwriteKeepsImage(file, d, data, img, ResumePoint(record, now));
    }
  }

  lemma PrefixOn(s: seq<bv8>, a: nat, b: nat)
    requires a <= b <= |s|
    ensures s[..a] + s[a..b] == s[..b]
  {}

  lemma JoinMore(a: seq<bv8>, b: seq<bv8>, c: seq<bv8>)
    ensures a + b + c == a + (b + c)
  {}

  lemma BufferFront(data: seq<bv8>, buff: seq<bv8>, n: nat)
    requires |data| <= n <= |buff|
    ensures |data + buff[|data|..]| == |buff|
    ensures |data| == n ==> (data + buff[|data|..])[..n] == data
  {}

  lemma FetchedOn(base: seq<bv8>, served: seq<bv8>, from: nat, d: nat, n: nat)
    requires from <= d <= n <= |served|
    ensures base + served[from..d] + served[d..n] == base + served[from..n]
  {}

  lemma NothingFails(events: seq<Event>)
    ensures FailedAt(events, 0, 0) == None
  {}

  /** Where a boot starts, the file is the image's as far as the break point vouched for. */
  lemma StartsOnImage(firmware: seq<bv8>, record: seq<octet>, now: Info, events: seq<Event>, img: seq<bv8>)
    requires Faithful(firmware, record, now, img)
    ensures var d := StartsAt(record, now, events); d <= |img| && d <= |firmware| && firmware[..d] == img[..d]
  {
    hide FailedAt, Recorded;
  }

  /** What has been hashed when everything was fetched. */
  lemma AllHashed(firmware: seq<bv8>, record: seq<octet>, now: Info, events: seq<Event>, served: seq<bv8>,
                  base: seq<bv8>)
    requires Backed(firmware, record) && |served| == now.file_size
    requires var d := StartsAt(record, now, events); base == Abandoned(firmware, record, now, events) + firmware[..d]
    ensures base + served[StartsAt(record, now, events)..now.file_size]
         == Hashed(firmware, record, now, events, served)
  {
    hide Abandoned, StartsAt, Recorded;
  }

  class Downloader {
    const store: Store
    const script: Script
    const md5: Md5.Context

    // what the server sends for the announced firmware, and how far it has been fetched
    const served: seq<bv8>
    var cosOffset: nat

    const download_now: Info
    var break_point: BreakPoint
    var download_size: nat
    var download_buff: seq<bv8>

    // bytes hashed by a restore that then gave up and started over from offset 0
    ghost var stale: seq<bv8>

    // what had been hashed when the download started, and where it did
    ghost var base: seq<bv8>
    ghost var from: nat

    ghost predicate Wired()
      reads this, store, script, md5
    {
      && store.script == script && md5.buffer.Length == 64 && |download_buff| == OTA_HTTP_BUF_SIZE
      && |served| == download_now.file_size
    }

    /** The running digest has absorbed exactly the first downloaded_size bytes of the store, after whatever
        an abandoned restore left in it. */
    ghost predicate OnStore()
      reads this, store, md5
    {
      && break_point.downloaded_size <= |store.firmware|
      && md5.message == stale + store.firmware[..break_point.downloaded_size]
      && Backed(store.firmware, store.record)
    }

    /** What holds at every turn of the download loop: what was fetched has been hashed, and as long as no write
        was short it is what is on the store. */
    ghost predicate InStep()
      reads this, store, script, md5, md5.buffer
    {
      && Wired() && md5.Valid() && md5.lost == 0
      && Accepts(break_point, download_now)
      && from <= break_point.downloaded_size && md5.message == base + served[from..break_point.downloaded_size]
      && (store.whole ==> OnStore())
    }

    /** The prefix property the loop keeps when the served bytes are the announced image. */
    ghost predicate OnImage()
      reads this, store
    {
      && Faithful(store.firmware, store.record, download_now, served)
      && break_point.downloaded_size <= |served|
      && break_point.downloaded_size <= |store.firmware|
      && store.firmware[..break_point.downloaded_size] == served[..break_point.downloaded_size]
    }

    /** A freshly booted device told to download `now`: RAM is zero. */
    constructor (store: Store, now: Info, served: seq<bv8>)
      requires |served| == now.file_size
      ensures this.store == store && script == store.script && download_now == now && this.served == served
      ensures Wired() && break_point == ZERO_BREAK_POINT && stale == []
      ensures fresh(md5) && fresh(md5.buffer)
    {
      this.store, this.script, this.download_now, this.served := store, store.script, now, served;
      md5 := new Md5.Context();
      break_point := ZERO_BREAK_POINT;
      download_buff := Zeros(OTA_HTTP_BUF_SIZE);
      cosOffset, download_size, stale, base, from := 0, 0, [], [], 0;
    }

    method BreakPointInit() returns (o: Outcome)
      requires Wired() && break_point == ZERO_BREAK_POINT
      modifies this`break_point, script, md5
      ensures Wired() && Rest(script.events, old(script.events))
      ensures md5.Valid() && md5.message == [] && md5.lost == 0
      ensures o == (if First(old(script.events)).Failed? then Rc(1) else ReadOutcome(First(old(script.events))))
      ensures script.events == After(old(script.events))
      ensures o == Rc(0) ==> break_point == Recorded(store.record)
    {
      md5.Reset();
      var bp;
      o, bp := store.BreakPointRead(break_point);
      if o == Rc(0) {
        break_point := bp;
      } else if o.Rc? {
        o := Rc(1);
      }
    }

    method BreakPointDeinit()
      modifies this`break_point
      ensures break_point == ZERO_BREAK_POINT
    {
      break_point := ZERO_BREAK_POINT;
    }

    method BreakPointSet() returns (rc: int)
      modifies this`break_point
      ensures rc == 0 && break_point == BreakPoint(download_now, 0) && Accepts(break_point, download_now)
    {
      break_point := BreakPoint(download_now, 0);
      return 0;
    }

    /** Nonzero unless the break point can be resumed. */
    method BreakPointCheck() returns (rc: int)
      ensures rc == 0 <==> Accepts(break_point, download_now)
    {
      EqualUpToIsSameText(break_point.file_id.version, download_now.version, MAX_SIZE_OF_FW_VERSION);
      EqualUpToIsSameText(break_point.file_id.md5sum, download_now.md5sum, 32);
      if !EqualUpTo(break_point.file_id.version, download_now.version, MAX_SIZE_OF_FW_VERSION)
         || break_point.file_id.file_size != download_now.file_size
         || break_point.downloaded_size > download_now.file_size
         || !EqualUpTo(break_point.file_id.md5sum, download_now.md5sum, 32) {
        return 1;
      }
      return 0;
    }

    /** Hashes the part already downloaded; a read that fails starts the download over, but the
        digest keeps what was hashed until then. */
    method BreakPointRestore() returns (o: Outcome)
      requires Wired() && stale == []
      requires md5.Valid() && md5.message == [] && md5.lost == 0
      requires Accepts(break_point, download_now)
      requires store.whole ==> break_point.downloaded_size <= |store.firmware| && Backed(store.firmware, store.record)
      modifies this`break_point, this`download_buff, this`stale, script, md5, md5.buffer
      ensures Wired() && Rest(script.events, old(script.events)) && md5.Valid() && md5.lost == 0
      ensures o.Rc? ==> o == Rc(0) && Accepts(break_point, download_now) && (store.whole ==> OnStore())
      ensures o.Rc? ==>
                match FailedAt(old(script.events), old(break_point.downloaded_size), 0)
                case None => break_point == old(break_point) && stale == []
                case Some(k) =>
                  && break_point == old(break_point).(downloaded_size := 0)
                  && (store.whole ==> k <= |store.firmware| && stale == store.firmware[..k])
    {
      hide Md5.Context.Valid, FailedAt, First, After, Recorded, SameIdentity;
      var size, total_read := break_point.downloaded_size, 0;
      ghost var all := break_point.downloaded_size;
      while size > 0
        invariant 0 <= total_read && 0 <= size && total_read + size == all == break_point.downloaded_size
        invariant break_point == old(break_point) && stale == []
        invariant Wired() && md5.Valid() && md5.lost == 0
        invariant store.whole ==> all <= |store.firmware| && md5.message == store.firmware[..total_read]
        invariant Rest(script.events, old(script.events))
        invariant FailedAt(script.events, size, total_read) == FailedAt(old(script.events), all, 0)
        decreases size
      {
        var rlen := if size > OTA_HTTP_BUF_SIZE then OTA_HTTP_BUF_SIZE else size;
        var data;
        FailedAtStep(script.events, size, total_read);
        o, data := store.FirmwareRead(rlen, total_read);
        if o == Off {
          return;
        }
        if o.rc < 0 {
          stale := md5.message;
          break_point := break_point.(downloaded_size := 0);
          assert md5.message == stale + store.firmware[..0];
          return Rc(0);
        }
        BufferFront(data, download_buff, rlen);
        download_buff := data + download_buff[|data|..];
        md5.Update(download_buff[..rlen]);
        if store.whole {
          PrefixOn(store.firmware, total_read, total_read + rlen);
        }
        size := size - rlen;
        total_read := total_read + rlen;
      }
      assert store.whole ==> md5.message == [] + store.firmware[..break_point.downloaded_size];
      return Rc(0);
    }

    method DownloadInit() returns (o: Outcome)
      modifies this`cosOffset, script
      ensures Rest(script.events, old(script.events)) && script.events == After(old(script.events))
      ensures o == ReadOutcome(First(old(script.events)))
      ensures o == Rc(0) ==> cosOffset == break_point.downloaded_size
    {
      var e := script.Next();
      match e
      case PowerCut(_) => o := Off;
      case Failed => o := Rc(-1);
      case _ =>
        cosOffset := break_point.downloaded_size;
        o := Rc(0);
    }

    method DownloadIsOver() returns (over: bool)
      ensures over <==> break_point.downloaded_size == download_now.file_size
    {
      over := break_point.downloaded_size == download_now.file_size;
    }

    /** How much of what is left is fetched. */
    static function Fetched(e: Event, left: nat): nat {
      var n := match e case Went(n) => n case Short(kept) => kept case _ => 0;
      var most := if left < OTA_HTTP_BUF_SIZE then left else OTA_HTTP_BUF_SIZE;
      if n < most then n else most
    }

    /** Fetches some of the served bytes from the current offset into the buffer. */
    method DownloadRecv() returns (o: Outcome)
      requires Wired() && cosOffset <= |served|
      modifies this`cosOffset, this`download_size, this`download_buff, script
      ensures o != Off ==> |script.events| < |old(script.events)|
      ensures Rest(script.events, old(script.events)) && script.events == After(old(script.events))
      ensures Wired() && cosOffset <= |served|
      ensures var e := First(old(script.events));
              o == if Goes(e) then Rc(Fetched(e, |served| - old(cosOffset))) else ReadOutcome(e)
      ensures o.Rc? && o.rc >= 0 ==>
                && download_size == o.rc <= OTA_HTTP_BUF_SIZE
                && cosOffset == old(cosOffset) + download_size
                && download_buff[..download_size] == served[old(cosOffset)..cosOffset]
    {
      var e := script.Next();
      match e
      case PowerCut(_) => o := Off;
      case Failed =>
        download_size := 0;
        o := Rc(-1);
      case _ =>
        download_size := Fetched(e, |served| - cosOffset);
        download_buff := served[cosOffset..cosOffset + download_size] + download_buff[download_size..];
        cosOffset := cosOffset + download_size;
        o := Rc(download_size);
    }

    /** Writes the fetched bytes to the firmware file at the downloaded size. */
    method DownloadSave() returns (o: Outcome)
      requires store.script == script && download_size <= |download_buff|
      modifies store`firmware, store`whole, script
      ensures Rest(script.events, old(script.events))
      ensures download_size == 0 ==>
                && o == Rc(0) && script.events == old(script.events)
                && store.firmware == old(store.firmware) && store.whole == old(store.whole)
      ensures download_size > 0 ==>
                o == ReadOutcome(First(old(script.events))) && script.events == After(old(script.events))
      ensures download_size > 0 && o == Rc(0) ==>
                var d, k := break_point.downloaded_size, Written(First(old(script.events)), download_size);
                && store.firmware == Overwrite(old(store.firmware), d, download_buff[..k])
                && store.whole == (old(store.whole) && k == download_size)
      ensures o != Rc(0) ==> store.whole == old(store.whole)
      ensures o == Rc(-1) ==> store.firmware == old(store.firmware)
      ensures o == Off ==>
                exists k | 0 <= k <= download_size ::
                  store.firmware == Overwrite(old(store.firmware), break_point.downloaded_size, download_buff[..k])
    {
      if download_size == 0 {
        return Rc(0);
      }
      ghost var data := download_buff[..download_size];
      o := store.FirmwareWrite(download_buff[..download_size], break_point.downloaded_size);
      if o == Off {
        ghost var k :| 0 <= k <= download_size && store.firmware
                 == Overwrite(old(store.firmware), break_point.downloaded_size, data[..k]);
        assert data[..k] == download_buff[..k];
      } else if o == Rc(0) {
        ghost var k := Written(First(old(script.events)), download_size);
        assert data[..k] == download_buff[..k];
      }
    }

    /** Counts and hashes the saved bytes, then records the progress. */
    method BreakPointSave() returns (o: Outcome)
      requires Wired() && md5.Valid() && md5.lost == 0 && download_size <= OTA_HTTP_BUF_SIZE
      requires break_point.downloaded_size + download_size < TWO_32
      modifies this`break_point, script, md5, md5.buffer, store`record
      ensures Rest(script.events, old(script.events))
      ensures Wired() && md5.Valid() && md5.lost == 0
      ensures break_point == old(break_point).(downloaded_size := old(break_point.downloaded_size) + download_size)
      ensures md5.message == old(md5.message) + download_buff[..download_size]
      ensures o == ReadOutcome(First(old(script.events)))
      ensures store.record == old(store.record) || store.record <= Struct(break_point)
      ensures o == Rc(0) ==> store.record == Struct(break_point)[..Written(First(old(script.events)), STRUCT_SIZE)]
      ensures o == Rc(0) && !First(old(script.events)).Short? ==> store.record == Struct(break_point)
      ensures store.record == Struct(break_point) && Accepts(break_point, download_now) ==>
                ResumePoint(store.record, download_now) == break_point.downloaded_size
      ensures old(Backed(store.firmware, store.record)) && break_point.downloaded_size <= |store.firmware| ==>
                Backed(store.firmware, store.record)
      ensures old(Faithful(store.firmware, store.record, download_now, served))
              && break_point.downloaded_size <= |served| && break_point.downloaded_size <= |store.firmware|
              && store.firmware[..break_point.downloaded_size] == served[..break_point.downloaded_size] ==>
                Faithful(store.firmware, store.record, download_now, served)
    {
      hide Md5.Context.Valid, Recorded, Struct, ResumePoint, SameIdentity;
      break_point := break_point.(downloaded_size := break_point.downloaded_size + download_size);
      md5.Update(download_buff[..download_size]);
      o := store.BreakPointWrite(break_point);
      if store.record <= Struct(break_point) {
        TornResumesNoFurther(store.record, break_point, download_now);
        assert Struct(break_point)[..STRUCT_SIZE] == Struct(break_point) by { WholeStruct(break_point); }
        if break_point.downloaded_size <= |store.firmware| {
          TornKeepsFaithful(store.firmware, store.record, break_point, download_now, served);
        }
      }
    }

    /** The first half of a turn: fetch, and save the data at the downloaded size. */
    method FetchAndSave() returns (o: Outcome, status: Status)
      requires Wired() && cosOffset == break_point.downloaded_size <= |served|
      requires store.whole ==> break_point.downloaded_size <= |store.firmware| && Backed(store.firmware, store.record)
      modifies this`cosOffset, this`download_size, this`download_buff, script, store`firmware, store`whole
      ensures Wired() && Rest(script.events, old(script.events))
      ensures o != Off ==> |script.events| < |old(script.events)|
      ensures store.whole ==> old(store.whole) && Backed(store.firmware, store.record)
      ensures old(store.whole) && NoShort(old(script.events)) ==> store.whole
      ensures store.whole && old(OnImage()) ==> Faithful(store.firmware, store.record, download_now, served)
      ensures o == Rc(0) ==>
                var d, n := break_point.downloaded_size, break_point.downloaded_size + download_size;
                && download_size <= OTA_HTTP_BUF_SIZE && cosOffset == n <= |served|
                && download_buff[..download_size] == served[d..n]
                && (store.whole ==>
                      && n <= |store.firmware|
                      && store.firmware[..n] == old(store.firmware)[..d] + download_buff[..download_size]
                      && (old(OnImage()) ==> store.firmware[..n] == served[..n]))
      ensures o.Rc? && o != Rc(0) ==> status != Success
    {
      hide Overwrite, Recorded, ResumePoint, SameIdentity, Faithful, Backed;
      status := Success;
      ghost var d, file, img := break_point.downloaded_size, store.firmware, served;
      o := DownloadRecv();
      if o == Off { return; }
      if o.rc < 0 {
        status := NetworkFailed;
        return;
      }
      ghost var data := download_buff[..download_size];
      assert data == img[d..d + |data|];
      o := DownloadSave();
      if o == Off {
        ghost var k :| 0 <= k <= download_size && store.firmware == Overwrite(file, d, download_buff[..k]);
        assert download_buff[..k] == data[..k];
        assert data[..k] == img[d..d + k];
        if store.whole {
          KeepsFaithful(file, store.record, download_now, img, d, data[..k]);
        }
        return;
      }
      if o != Rc(0) {
        status := DataDownloadFailed;
        return;
      }
      if store.whole {
        KeepsFaithful(file, store.record, download_now, img, d, data);
        assert store.firmware[..d + |data|] == file[..d] + data;
      }
      return Rc(0), Success;
    }

    /** One turn of the driver loop: fetch, save the data, then hash it and record the progress. */
    method Turn() returns (o: Outcome, status: Status)
      requires InStep() && cosOffset == break_point.downloaded_size
      modifies this`break_point, this`cosOffset, this`download_size, this`download_buff
      modifies script, md5, md5.buffer, store`firmware, store`whole, store`record
      ensures Wired() && Rest(script.events, old(script.events)) && stale == old(stale)
      ensures o != Off ==> |script.events| < |old(script.events)|
      ensures store.whole ==> old(store.whole) && Backed(store.firmware, store.record)
      ensures old(store.whole) && NoShort(old(script.events)) ==> store.whole
      ensures o == Rc(0) ==> InStep() && cosOffset == break_point.downloaded_size
      ensures o == Rc(0) ==> store.record <= Struct(break_point)
      ensures o == Rc(0) && NoShort(old(script.events)) ==>
                && store.record == Struct(break_point)
                && ResumePoint(store.record, download_now) == break_point.downloaded_size
      ensures o == Rc(0) ==> break_point.downloaded_size == old(break_point.downloaded_size) + download_size
      ensures o.Rc? && o != Rc(0) ==> status != Success
      ensures store.whole && old(OnImage()) ==> Faithful(store.firmware, store.record, download_now, served)
      ensures store.whole && old(OnImage()) && o == Rc(0) ==> OnImage()
    {
      hide Md5.Context.Valid, Recorded, Struct, ResumePoint, SameIdentity, Faithful, Backed;
      o, status := FetchAndSave();
      if o != Rc(0) { return; }
      FetchedOn(base, served, from, break_point.downloaded_size, cosOffset);
      if store.whole {
        JoinMore(stale, old(store.firmware)[..break_point.downloaded_size], download_buff[..download_size]);
      }
      o := BreakPointSave();
      if o.Rc? && o != Rc(0) {
        status := BreakPointFailed;
      }
    }

    method DigestIsAnnounced() returns (valid: bool)
      requires md5.Valid() && md5.lost == 0
      modifies md5, md5.buffer
      ensures valid <==> DigestAnnounced(old(md5.message), download_now.md5sum)
    {
      hide Md5.Context.Valid, Md5Spec.Digest, Md5Spec.RegsBytes, Md5Spec.Compress;
      ghost var m := md5.message;
      md5.Finish();
      Md5.FinishedTextExact(m, 0);
      assert md5.md5sum[..32] == HexOf(Md5Spec.Digest(m));
      HexHasNoTerminator(Md5Spec.Digest(m));
      var differs := md5.Compare(download_now.md5sum);
      valid := !differs;
    }

    /** Ends a download: on success the digest decides, and a mismatch wipes the break point. */
    method Finish(status: Status) returns (o: Outcome, report: Report)
      requires Wired()
      requires status == Success ==> InStep() && break_point.downloaded_size == download_now.file_size
      modifies this`break_point, script, md5, md5.buffer, store`record
      ensures Rest(script.events, old(script.events))
      ensures store.record == old(store.record) || store.record <= Struct(ZERO_BREAK_POINT)
      ensures old(Backed(store.firmware, store.record)) ==> Backed(store.firmware, store.record)
      ensures old(Faithful(store.firmware, store.record, download_now, served)) ==>
                Faithful(store.firmware, store.record, download_now, served)
      ensures status != Success ==>
                o == Rc(0) && report in {DownloadTimeout, UpgradeFail} && store.record == old(store.record)
      ensures status == Success ==>
                var hashed := old(md5.message);
                && (o.Rc? ==>
                      report == if DigestAnnounced(hashed, download_now.md5sum) then UpgradeSuccess else Md5NotMatch)
                && (DigestAnnounced(hashed, download_now.md5sum) ==> o == Rc(0) && store.record == old(store.record))
    {
      hide Md5.Context.Valid, Recorded, Struct, ResumePoint, SameIdentity;
      match status
      case Success =>
        var valid := DigestIsAnnounced();
        if !valid {
          break_point := ZERO_BREAK_POINT;
          o := store.BreakPointWrite(break_point);
          if store.record <= Struct(ZERO_BREAK_POINT) {
            TornKeepsFaithful(store.firmware, store.record, ZERO_BREAK_POINT, download_now, served);
          }
          if o == Off {
            report := Md5NotMatch;
            return;
          }
        }
        o, report := Rc(0), if valid then UpgradeSuccess else Md5NotMatch;
      case NetworkFailed =>
        o, report := Rc(0), DownloadTimeout;
      case BreakPointFailed =>
        o, report := Rc(0), UpgradeFail;
      case DataDownloadFailed =>
        o, report := Rc(0), UpgradeFail;
    }

    /** Resumes from the break point just read, or starts over. */
    method Resume(ghost events: seq<Event>) returns (o: Outcome)
      requires Wired() && stale == [] && md5.Valid() && md5.message == [] && md5.lost == 0
      requires break_point == Recorded(store.record) && script.events == After(events)
      requires store.whole ==> Backed(store.firmware, store.record)
      modifies this`break_point, this`download_buff, this`stale, script, md5, md5.buffer
      ensures Wired() && Rest(script.events, old(script.events)) && o in {Off, Rc(0)}
      ensures md5.Valid() && md5.lost == 0
      ensures o == Rc(0) ==> Accepts(break_point, download_now) && (store.whole ==> OnStore())
      ensures o == Rc(0) ==> break_point.downloaded_size == StartsAt(store.record, download_now, events)
      ensures o == Rc(0) && store.whole ==> stale == Abandoned(store.firmware, store.record, download_now, events)
    {
      hide Md5.Context.Valid, SameIdentity, Recorded, FailedAt;
      var bad := BreakPointCheck();
      if bad != 0 {
        var rc := BreakPointSet();
        NothingFails(After(events));
        assert store.whole ==> md5.message == stale + store.firmware[..0];
        return Rc(0);
      }
      o := BreakPointRestore();
    }

    /** Everything before the loop: read the break point, resume from it or start over, connect. */
    method Start() returns (o: Outcome, status: Status)
      requires Wired() && break_point == ZERO_BREAK_POINT && stale == []
      requires store.whole ==> Backed(store.firmware, store.record)
      modifies this`break_point, this`cosOffset, this`download_buff, this`stale, this`base, this`from
      modifies script, md5, md5.buffer
      ensures Wired() && Rest(script.events, old(script.events))
      ensures o == Rc(0) ==> status == Success && InStep() && cosOffset == break_point.downloaded_size == from
      ensures o == Rc(0) && store.whole ==>
                stale == Abandoned(store.firmware, store.record, download_now, old(script.events))
      ensures o == Rc(0) ==> from == StartsAt(store.record, download_now, old(script.events))
      ensures o == Rc(0) && store.whole && Faithful(store.firmware, store.record, download_now, served) ==> OnImage()
      ensures o.Rc? && o != Rc(0) ==> status != Success
    {
      hide Md5.Context.Valid, SameIdentity, Recorded, Abandoned, StartsAt, ResumePoint;
      status := Success;
      o := BreakPointInit();
      if o == Off { return; }
      if o != Rc(0) {
        status := BreakPointFailed;
        return;
      }
      o := Resume(old(script.events));
      if o == Off { return; }
      o := DownloadInit();
      if o == Off { return; }
      if o != Rc(0) {
        status := DataDownloadFailed;
        return;
      }
      base, from := md5.message, break_point.downloaded_size;
      assert base == base + served[from..from];
      if Faithful(store.firmware, store.record, download_now, served) {
        StartsOnImage(store.firmware, store.record, download_now, old(script.events), served);
      }
    }

    /** The loop of the driver. */
    method Download() returns (o: Outcome, status: Status)
      requires InStep() && cosOffset == break_point.downloaded_size
      modifies this`break_point, this`cosOffset, this`download_size, this`download_buff
      modifies script, md5, md5.buffer, store`firmware, store`whole, store`record
      ensures Wired() && Rest(script.events, old(script.events)) && stale == old(stale)
      ensures store.whole ==> old(store.whole) && Backed(store.firmware, store.record)
      ensures old(store.whole) && NoShort(old(script.events)) ==> store.whole
      ensures o == Rc(0) ==>
                && status == Success && InStep() && break_point.downloaded_size == download_now.file_size
                && from == old(from) && base == old(base)
      ensures o.Rc? && o != Rc(0) ==> status != Success
      ensures store.whole && old(OnImage()) ==> Faithful(store.firmware, store.record, download_now, served)
      ensures store.whole && old(OnImage()) && o == Rc(0) ==> OnImage()
    {
      hide Md5.Context.Valid, Recorded, Struct, ResumePoint, SameIdentity, Faithful, Backed;
      o, status := Rc(0), Success;
      var over := DownloadIsOver();
      while !over
        invariant InStep() && cosOffset == break_point.downloaded_size
        invariant over <==> break_point.downloaded_size == download_now.file_size
        invariant store.whole ==> old(store.whole)
        invariant old(store.whole) && NoShort(old(script.events)) ==> store.whole
        invariant store.whole && old(OnImage()) ==> OnImage()
        invariant o == Rc(0) && status == Success && Rest(script.events, old(script.events))
        decreases |script.events|
      {
        RestNoShort(script.events, old(script.events));
        o, status := Turn();
        if o != Rc(0) { return; }
        status := Success;
        over := DownloadIsOver();
      }
    }

    /** The whole download: the generic driver over the callbacks above. */
    method Process() returns (o: Outcome, report: Report)
      requires Wired() && break_point == ZERO_BREAK_POINT && stale == []
      requires store.whole ==> Backed(store.firmware, store.record)
      modifies this`break_point, this`cosOffset, this`download_size, this`download_buff, this`stale
      modifies this`base, this`from, script, md5, md5.buffer, store`firmware, store`whole, store`record
      ensures Wired() && Rest(script.events, old(script.events))
      ensures store.whole ==> old(store.whole) && Backed(store.firmware, store.record)
      ensures old(store.whole) && NoShort(old(script.events)) ==> store.whole
      ensures store.whole && old(Faithful(store.firmware, store.record, download_now, served)) ==>
                Faithful(store.firmware, store.record, download_now, served)
      ensures store.whole && old(Faithful(store.firmware, store.record, download_now, served))
              && o.Rc? && report in {UpgradeSuccess, Md5NotMatch} ==>
                download_now.file_size <= |store.firmware| && store.firmware[..download_now.file_size] == served
      ensures old(store.whole) && o.Rc? && report in {UpgradeSuccess, Md5NotMatch} ==>
                (report == UpgradeSuccess <==>
                   DigestAnnounced(old(Hashed(store.firmware, store.record, download_now, script.events, served)),
                                   download_now.md5sum))
      ensures store.whole && o.Rc? && report in {UpgradeSuccess, Md5NotMatch} ==>
                && download_now.file_size <= |store.firmware|
                && old(Hashed(store.firmware, store.record, download_now, script.events, served))
                == old(Abandoned(store.firmware, store.record, download_now, script.events))
                   + store.firmware[..download_now.file_size]
      ensures o.Rc? ==> break_point == ZERO_BREAK_POINT
    {
      hide Md5.Context.Valid, Hashed, Abandoned, Recorded, Struct, ResumePoint, SameIdentity, StartsAt, Faithful,
           Backed;
      ghost var firmware, record, events := store.firmware, store.record, script.events;
      var status := Success;
      report := UpgradeFail;
      o, status := Start();
      if o == Off { return; }
      if o == Rc(0) {
        RestNoShort(script.events, events);
        ghost var begun := store.whole;
        o, status := Download();
        if o == Off { return; }
        if o == Rc(0) && begun {
          AllHashed(firmware, record, download_now, events, served, base);
        }
      }
      o, report := Finish(status);
      if o == Off { return; }
      BreakPointDeinit();
    }
  }

  // ---- any number of boots ----

  /** One boot: what is announced, what the server sends for it, and the history until the device
      stops or the power goes. */
  datatype Boot = Boot(now: Info, served: seq<bv8>, events: seq<Event>)

  /** The two files between boots, and whether every write to the first so far was written out in full. */
  datatype Files = Files(firmware: seq<bv8>, record: seq<octet>, whole: bool)

  predicate FilesBacked(files: Files) {
    files.whole ==> Backed(files.firmware, files.record)
  }

  predicate FilesFaithful(files: Files, now: Info, img: seq<bv8>) {
    files.whole ==> Faithful(files.firmware, files.record, now, img)
  }

  predicate Concludes(report: Report) {
    report in {UpgradeSuccess, Md5NotMatch}
  }

  /** What a concluded download is worth when the boot found a whole store: the report says whether the announced
      sum is that of what the boot hashed; and when the store is whole to the end, this is the file, behind what the
      boot's restore had hashed and abandoned, if anything. */
  ghost predicate Earned(boot: Boot, before: Files, after: Files, report: Report)
    requires FilesBacked(before) && |boot.served| == boot.now.file_size
  {
    before.whole && Concludes(report) ==>
      var hashed := Hashed(before.firmware, before.record, boot.now, boot.events, boot.served);
      && (report == UpgradeSuccess <==> DigestAnnounced(hashed, boot.now.md5sum))
      && (after.whole ==>
            && boot.now.file_size <= |after.firmware|
            && hashed == Abandoned(before.firmware, before.record, boot.now, boot.events)
                         + after.firmware[..boot.now.file_size])
  }

  /** Without an abandoned restore the report says whether the file has the announced sum. */
  lemma EarnedPlainly(boot: Boot, before: Files, after: Files, report: Report)
    requires FilesBacked(before) && |boot.served| == boot.now.file_size && before.whole && after.whole
    requires Earned(boot, before, after, report) && Concludes(report)
    requires FailedAt(After(boot.events), ResumePoint(before.record, boot.now), 0) in {None, Some(0)}
    ensures report == UpgradeSuccess <==> DigestAnnounced(after.firmware[..boot.now.file_size], boot.now.md5sum)
  {
    var file := after.firmware[..boot.now.file_size];
    assert [] + file == file;
  }

  /** A file that has the announced sum is reported a success behind an abandoned restore only by a
      collision: the sum of the abandoned bytes and the file would have to be the file's. */
  lemma AbandonedHidesSuccess(boot: Boot, before: Files, after: Files, report: Report)
    requires FilesBacked(before) && |boot.served| == boot.now.file_size && before.whole && after.whole
    requires Earned(boot, before, after, report) && Concludes(report)
    requires DigestAnnounced(after.firmware[..boot.now.file_size], boot.now.md5sum)
    ensures var abandoned := Abandoned(before.firmware, before.record, boot.now, boot.events);
            var file := after.firmware[..boot.now.file_size];
            report == UpgradeSuccess <==> Md5Spec.Digest(abandoned + file) == Md5Spec.Digest(file)
  {
    hide Abandoned, Hashed, Md5Spec.Digest, Recorded;
    var abandoned := Abandoned(before.firmware, before.record, boot.now, boot.events);
    var file := after.firmware[..boot.now.file_size];
    if report == UpgradeSuccess {
      HexInjective(Md5Spec.Digest(abandoned + file), Md5Spec.Digest(file));
    }
  }

  lemma EmptyIsFaithful(now: Info, img: seq<bv8>)
    ensures Backed([], []) && Faithful([], [], now, img)
  {
    hide Recorded;
    TornRecord([], ZERO_BREAK_POINT);
  }

  /** One boot between two states of the files. */
  method RunBoot(boot: Boot, before: Files) returns (after: Files, report: Option<Report>)
    requires |boot.served| == boot.now.file_size && FilesBacked(before)
    ensures FilesBacked(after) && (after.whole ==> before.whole)
    ensures before.whole && NoShort(boot.events) ==> after.whole
    ensures report.Some? ==> Earned(boot, before, after, report.value)
    ensures FilesFaithful(before, boot.now, boot.served) ==>
              && FilesFaithful(after, boot.now, boot.served)
              && (after.whole && report.Some? && Concludes(report.value) ==>
                    |boot.served| <= |after.firmware| && after.firmware[..|boot.served|] == boot.served)
  {
    hide Md5.Context.Valid, Md5Spec.Digest, Recorded, Abandoned, Hashed, ResumePoint, Faithful, Backed;
    var script := new Script(boot.events);
    var store := new Store(script, before.firmware, before.record, before.whole);
    var device := new Downloader(store, boot.now, boot.served);
    var o, told := device.Process();
    after, report := Files(store.firmware, store.record, store.whole), if o.Rc? then Some(told) else None;
  }

  ghost predicate OneImage(boots: seq<Boot>, now: Info, img: seq<bv8>) {
    forall b :: b in boots ==> b.now == now && b.served == img
  }

  /** Any sequence of boots of a device whose files start empty, each cut off anywhere: `trace` holds the
      files before each boot and after the last, `reports` what each boot that ended by itself told. */
  method Life(boots: seq<Boot>, now: Info, img: seq<bv8>)
    returns (trace: seq<Files>, reports: seq<Option<Report>>)
    requires forall b :: b in boots ==> |b.served| == b.now.file_size
    ensures |reports| == |boots| && |trace| == |boots| + 1 && trace[0] == Files([], [], true)
    ensures forall i :: 0 <= i < |boots| ==> (trace[i + 1].whole ==> trace[i].whole)
    ensures forall i :: 0 <= i < |boots| && trace[i].whole && NoShort(boots[i].events) ==> trace[i + 1].whole
    ensures forall i :: 0 <= i < |trace| ==> FilesBacked(trace[i])
    ensures forall i :: 0 <= i < |boots| && reports[i].Some? ==>
              Earned(boots[i], trace[i], trace[i + 1], reports[i].value)
    ensures OneImage(boots, now, img) ==> forall i :: 0 <= i < |trace| ==> FilesFaithful(trace[i], now, img)
    ensures OneImage(boots, now, img) ==>
              forall i :: 0 <= i < |boots| && trace[i + 1].whole && reports[i].Some? && Concludes(reports[i].value) ==>
                |img| <= |trace[i + 1].firmware| && trace[i + 1].firmware[..|img|] == img
  {
    hide Earned, Faithful, Backed, Recorded;
    EmptyIsFaithful(now, img);
    trace, reports := [Files([], [], true)], [];
    for n := 0 to |boots|
      invariant |reports| == n && |trace| == n + 1 && trace[0] == Files([], [], true)
      invariant forall i :: 0 <= i < n ==> (trace[i + 1].whole ==> trace[i].whole)
      invariant forall i :: 0 <= i < n && trace[i].whole && NoShort(boots[i].events) ==> trace[i + 1].whole
      invariant forall i :: 0 <= i < |trace| ==> FilesBacked(trace[i])
      invariant forall i :: 0 <= i < n && reports[i].Some? ==>
                  Earned(boots[i], trace[i], trace[i + 1], reports[i].value)
      invariant OneImage(boots, now, img) ==> forall i :: 0 <= i < |trace| ==> FilesFaithful(trace[i], now, img)
      invariant OneImage(boots, now, img) ==>
                  forall i :: 0 <= i < n && trace[i + 1].whole && reports[i].Some? && Concludes(reports[i].value) ==>
                    |img| <= |trace[i + 1].firmware| && trace[i + 1].firmware[..|img|] == img
    {
      assert boots[n] in boots;
      var after, report := RunBoot(boots[n], trace[n]);
      trace, reports := trace + [after], reports + [report];
    }
  }

  // ---- what a write cut short does ----

  /** The field that holds the text of a digest. */
  function SumField(digest: seq<bv8>): Md5sumField
    requires |digest| == 16
  {
    HexIsLower(digest);
    assert forall i :: 0 <= i < 32 ==> HexOf(digest)[i] in HexOf(digest);
    HexOf(digest) + ['\0']
  }

  lemma SumFieldLower(digest: seq<bv8>)
    requires |digest| == 16
    ensures Lower(SumField(digest))[..32] == HexOf(digest)
  {
    hide HexOf;
    HexLength(digest);
    HexIsLower(digest);
    var hex := HexOf(digest);
    forall i | 0 <= i < 32 ensures Lower(SumField(digest))[i] == hex[i] {
      assert SumField(digest)[i] == hex[i];
    }
  }

  lemma DigestLength(img: seq<bv8>)
    ensures |Md5Spec.Digest(img)| == 16
  {
    hide Md5Spec.Pad, Md5Spec.Compress;
  }

  /** Every image has a sum that can be announced. */
  lemma SumIsAnnounced(img: seq<bv8>)
    ensures |Md5Spec.Digest(img)| == 16 && DigestAnnounced(img, SumField(Md5Spec.Digest(img)))
  {
    DigestLength(img);
    hide Md5Spec.Digest, SumField;
    SumFieldLower(Md5Spec.Digest(img));
  }

  lemma EmptyRecord()
    ensures Recorded([]) == ZERO_BREAK_POINT
  {
    hide FromStruct;
    var whole := Struct(ZERO_BREAK_POINT);
    TornRecord(whole, ZERO_BREAK_POINT);
    assert whole[..STRUCT_SIZE] + whole[STRUCT_SIZE..] == whole;
    assert [] + whole[0..] == whole;
  }

  /** A new device on an empty store, ready to fetch. */
  method BeginOnEmpty(now: Info, img: seq<bv8>, rest: seq<Event>) returns (device: Downloader)
    requires |img| == now.file_size > 0
    ensures fresh(device) && fresh(device.store) && fresh(device.script)
    ensures fresh(device.md5) && fresh(device.md5.buffer)
    ensures device.Wired() && device.download_now == now && device.served == img
    ensures device.break_point == BreakPoint(now, 0) && device.cosOffset == 0 && device.script.events == rest
    ensures device.md5.Valid() && device.md5.lost == 0 && device.md5.message == []
    ensures device.store.firmware == [] && device.store.record == [] && device.store.whole
  {
    hide Md5.Context.Valid, Recorded;
    var script := new Script([Went(0), Went(0)] + rest);
    var store := new Store(script, [], [], true);
    device := new Downloader(store, now, img);
    EmptyRecord();
    var o := device.BreakPointInit();
    var bad := device.BreakPointCheck();
    assert bad != 0;
    var rc := device.BreakPointSet();
    o := device.DownloadInit();
    assert script.events == rest;
  }

  /** A turn that fetches a whole image and whose write leaves nothing on the store. */
  method LoseOnTheWay(device: Downloader)
    requires device.Wired() && device.cosOffset == 0 && device.break_point == BreakPoint(device.download_now, 0)
    requires 0 < |device.served| <= OTA_HTTP_BUF_SIZE && device.store.firmware == []
    requires device.script.events == [Went(OTA_HTTP_BUF_SIZE), Short(0), Went(0)]
    requires device.md5.Valid() && device.md5.lost == 0 && device.md5.message == []
    requires device !in {device.md5 as object, device.store, device.script}
    modifies device, device.store, device.script, device.md5, device.md5.buffer
    ensures device.Wired() && device.md5.Valid() && device.md5.lost == 0 && device.md5.message == device.served
    ensures device.break_point == BreakPoint(device.download_now, |device.served|)
    ensures device.store.firmware == [] && !device.store.whole
    ensures Recorded(device.store.record) == device.break_point
  {
    hide Md5.Context.Valid, Recorded, Struct;
    ghost var img := device.served;
    var o := device.DownloadRecv();
    assert device.download_buff[..|img|] == img[0..|img|] == img;
    o := device.DownloadSave();
    assert device.store.firmware == [];
    o := device.BreakPointSave();
    TornRecord(device.store.record, device.break_point);
  }

  /** Any image that fits one buffer: its only write leaves nothing on the store, and the driver still counts it,
      records it and reports a success. */
  method ShortWriteIsReportedSuccess(version: VersionField, md5sum: Md5sumField, img: seq<bv8>)
      returns (store: Store, report: Report)
    requires 0 < |img| <= OTA_HTTP_BUF_SIZE && DigestAnnounced(img, md5sum)
    ensures report == UpgradeSuccess && store.firmware == [] && !store.whole
    ensures Recorded(store.record).downloaded_size == |img| && !Backed(store.firmware, store.record)
  {
    hide Md5.Context.Valid, Md5Spec.Digest, Recorded, DigestAnnounced;
    var now := Info(version, |img|, md5sum);
    var device := BeginOnEmpty(now, img, [Went(OTA_HTTP_BUF_SIZE), Short(0), Went(0)]);
    store := device.store;
    LoseOnTheWay(device);
    device.base, device.from := [], 0;
    assert [] + img[0..|img|] == img;
    var o;
    o, report := device.Finish(Success);
  }
}
