/**
  Camera buffers shared by preview and video consumers: the reference counts that decide when the
  camera gets a buffer back.
 */
module FrameCounts {
  /** A buffer's address; NULL is 0. */
  type Buffer = int

  /** The frame types in the order of their mask bits, and all others as one. */
  datatype FrameType = Preview | Image | Video | Data | Raw | Snapshot | Unsupported {
    /** Types whose buffers the camera wants back. */
    predicate Streams() { this == Preview || this == Video || this == Snapshot }
  }

  const FRAME_TYPES: seq<FrameType> := [Preview, Image, Video, Data, Raw, Snapshot]

  /** Where in that order a type comes. */
  ghost function Place(t: FrameType): (i: nat)
    ensures t == Unsupported || (i < |FRAME_TYPES| && FRAME_TYPES[i] == t)
    ensures i <= |FRAME_TYPES|
  {
    match t
    case Preview => 0
    case Image => 1
    case Video => 2
    case Data => 3
    case Raw => 4
    case Snapshot => 5
    case Unsupported => 6
  }

  /** The types in `mask` among the first `n`. */
  ghost function Among(mask: set<FrameType>, n: nat): set<FrameType> { set t | t in mask && Place(t) < n }

  /** How many subscribers each kind of frame has. */
  datatype Subscribers = Subscribers(frame: nat, image: nat, video: nat, data: nat, raw: nat) {
    function For(t: FrameType): nat {
      match t
      case Preview => frame
      case Snapshot => frame
      case Image => image
      case Video => video
      case Data => data
      case Raw => raw
      case Unsupported => 0
    }
  }

  datatype Status = Ok | NoInit | Invalid

  // ----- What the operations mean -----

  /** `m` with a new count for `b`, if it has one at all. */
  function Replace(m: map<Buffer, nat>, b: Buffer, n: nat): map<Buffer, nat> { if b in m then m[b := n] else m }

  ghost function OneLess(m: map<Buffer, nat>, b: Buffer): map<Buffer, nat> {
    if b in m && m[b] > 0 then m[b := m[b] - 1] else m
  }

  /** The four tables of counts, and whether video is being recorded. */
  datatype Counts = Counts(preview: map<Buffer, nat>, video: map<Buffer, nat>, capture: map<Buffer, nat>,
                           data: map<Buffer, nat>, recording: bool) {
    /** The table that counts frames of type `t`. */
    ghost function Of(t: FrameType): map<Buffer, nat> {
      match t
      case Preview => preview
      case Snapshot => preview
      case Video => video
      case Image => capture
      case Raw => capture
      case Data => data
      case Unsupported => map[]
    }

    /** While recording, every preview buffer has a video count; otherwise none has. */
    ghost predicate Valid() { video.Keys == if recording then preview.Keys else {} }

    /** Looking up a count is only defined for a known buffer. */
    ghost predicate Knows(b: Buffer, t: FrameType) { t == Unsupported || b in Of(t) }

    ghost function Get(b: Buffer, t: FrameType): int
      requires Knows(b, t)
    {
      if t == Unsupported then -1 else Of(t)[b]
    }

    ghost function Set(b: Buffer, t: FrameType, n: nat): Counts {
      Counts(
        if t == Preview || t == Snapshot then Replace(preview, b, n) else preview,
        if t == Video then Replace(video, b, n) else video,
        if t == Image || t == Raw then Replace(capture, b, n) else capture,
        if t == Data then Replace(data, b, n) else data,
        recording)
    }

    /** Everyone who still holds a preview buffer. */
    ghost function Holders(b: Buffer): nat
      requires Valid() && b in preview
    {
      preview[b] + if recording then video[b] else 0
    }

    /** One holder of `b` gave it back; a count of zero stays. */
    ghost function Returned(b: Buffer, t: FrameType): Counts {
      Counts(
        if t == Preview || t == Snapshot then OneLess(preview, b) else preview,
        if t == Video then OneLess(video, b) else video,
        if t == Image || t == Raw then OneLess(capture, b) else capture,
        if t == Data then OneLess(data, b) else data,
        recording)
    }

    /** Nobody holds `b` any more once this frame is given back. */
    ghost predicate LastReturn(b: Buffer, t: FrameType)
      requires Valid() && Knows(b, t)
    {
      && Get(b, t) == 1
      && (t == Video ==> preview[b] == 0)
      && (recording && (t == Preview || t == Snapshot) ==> video[b] == 0)
    }

    /** `b` is about to go to all subscribers of the types in `mask`. */
    ghost function Delivered(b: Buffer, mask: set<FrameType>, subs: Subscribers): Counts {
      Counts(
        if Preview in mask || Snapshot in mask then Replace(preview, b, subs.frame) else preview,
        if Video in mask then Replace(video, b, subs.video) else video,
        if Raw in mask then Replace(capture, b, subs.raw)
        else if Image in mask then Replace(capture, b, subs.image) else capture,
        if Data in mask then Replace(data, b, subs.data) else data,
        recording)
    }

    ghost function Started(): Counts {
      if recording then this else this.(video := map b | b in preview :: 0, recording := true)
    }

    ghost function Stopped(): Counts { this.(video := map[], recording := false) }

    /** Buffers whose one video holder is the last holder: stopping hands them back. */
    ghost function FreedByStop(): set<Buffer>
      requires Valid()
    {
      set b | b in video && video[b] == 1 && preview[b] == 0
    }
  }

  /** Calls to the first `n` subscribers for frames of type `t`. */
  ghost function Calls(t: FrameType, n: nat): seq<(FrameType, nat)> { seq(n, i => (t, i)) }

  /** Sending a frame of type `t` finds a positive count that its subscribers can match. */
  ghost predicate Sendable(c: Counts, b: Buffer, t: FrameType, subs: Subscribers, queued: bool)
    requires c.Knows(b, t)
  {
    (t.Streams() ==> queued) && 0 < c.Get(b, t) <= subs.For(t)
  }

  ghost predicate KnowsAll(c: Counts, b: Buffer, mask: set<FrameType>) {
    forall t :: t in mask && t != Unsupported ==> c.Knows(b, t)
  }

  /** The calls made for the first `n` frame types, up to the first that cannot be sent. */
  ghost function Sent(c: Counts, b: Buffer, mask: set<FrameType>, subs: Subscribers, queued: bool, n: nat)
    : (r: (Status, seq<(FrameType, nat)>))
    requires n <= |FRAME_TYPES| && KnowsAll(c, b, mask)
  {
    if n == 0 then (Ok, [])
    else
      var before := Sent(c, b, mask, subs, queued, n - 1);
      var t := FRAME_TYPES[n - 1];
      if before.0 != Ok || t !in mask then before
      else if Sendable(c, b, t, subs, queued) then (Ok, before.1 + Calls(t, c.Get(b, t)))
      else (Invalid, before.1)
  }

  class CameraAdapter {
    var preview: map<Buffer, nat>
    var video: map<Buffer, nat>
    var capture: map<Buffer, nat>
    var data: map<Buffer, nat>
    var recording: bool
    var withDisplay: int
    var withEncoder: int
    /** The calls to `fillThisBuffer`. */
    ghost var refills: seq<(Buffer, FrameType)>

    ghost function State(): Counts
      reads this
    {
      Counts(preview, video, capture, data, recording)
    }

    constructor ()
      ensures State() == Counts(map[], map[], map[], map[], false) && refills == []
    {
      preview, video, capture, data, recording := map[], map[], map[], map[], false;
      withDisplay, withEncoder, refills := 0, 0, [];
    }

    /** The preview buffers of a new session: the first `queueable` are the camera's already. */
    method UsePreviewBuffers(buffers: seq<Buffer>, queueable: nat)
      requires queueable <= |buffers| && forall i, j :: 0 <= i < j < |buffers| ==> buffers[i] != buffers[j]
      requires State().Valid() && !recording
      modifies `preview
      ensures State().Valid() && preview.Keys == set b | b in buffers
      ensures forall i :: 0 <= i < |buffers| ==> preview[buffers[i]] == if i < queueable then 0 else 1
      ensures Owned(State(), set b | b in buffers[..queueable])
    {
      preview := map[];
      for i := 0 to |buffers|
        invariant preview.Keys == set b | b in buffers[..i]
        invariant forall j :: 0 <= j < i ==> preview[buffers[j]] == if j < queueable then 0 else 1
      {
        preview := preview[buffers[i] := if i < queueable then 0 else 1];
      }
      assert buffers[..|buffers|] == buffers;
    }

    method GetFrameRefCount(b: Buffer, t: FrameType) returns (n: int)
      requires State().Knows(b, t)
      ensures n == State().Get(b, t)
    {
      match t
      case Preview => n := preview[b];
      case Snapshot => n := preview[b];
      case Video => n := video[b];
      case Image => n := capture[b];
      case Raw => n := capture[b];
      case Data => n := data[b];
      case Unsupported => n := -1;
    }

    /** Replaces the count of a known buffer; an unknown one is left out. */
    method SetFrameRefCount(b: Buffer, t: FrameType, n: nat)
      modifies `preview, `video, `capture, `data
      ensures State() == old(State()).Set(b, t, n)
    {
      match t
      case Preview => preview := Replace(preview, b, n);
      case Snapshot => preview := Replace(preview, b, n);
      case Video => video := Replace(video, b, n);
      case Image => capture := Replace(capture, b, n);
      case Raw => capture := Replace(capture, b, n);
      case Data => data := Replace(data, b, n);
      case Unsupported =>
    }

    /** `setInitFrameRefCount`. */
    method SetInitFrameRefCount(b: Buffer, mask: set<FrameType>, subs: Subscribers) returns (ret: Status)
      modifies `preview, `video, `capture, `data
      ensures ret == if b == 0 then Invalid else Ok
      ensures State() == if b == 0 then old(State()) else old(State()).Delivered(b, mask, subs)
    {
      if b == 0 {
        return Invalid;
      }
      ghost var before := State();
      for i := 0 to |FRAME_TYPES|
        invariant State() == before.Delivered(b, Among(mask, i), subs)
      {
        DeliveredNext(before, b, mask, subs, i);
        if FRAME_TYPES[i] in mask {
          SetFrameRefCount(b, FRAME_TYPES[i], subs.For(FRAME_TYPES[i]));
        }
      }
      assert before.Delivered(b, Among(mask, |FRAME_TYPES|), subs) == before.Delivered(b, mask, subs);
      ret := Ok;
    }

    /** `sendFrameToSubscribers`; `calls` lists the callbacks made, and to whom. */
    method SendFrameToSubscribers(b: Buffer, mask: set<FrameType>, subs: Subscribers, queued: bool)
      returns (ret: Status, calls: seq<(FrameType, nat)>)
      requires KnowsAll(State(), b, mask)
      ensures (ret, calls) == Sent(State(), b, mask, subs, queued, |FRAME_TYPES|)
    {
      ret, calls := Ok, [];
      for i := 0 to |FRAME_TYPES|
        invariant (ret, calls) == Sent(State(), b, mask, subs, queued, i) && ret == Ok
      {
        if FRAME_TYPES[i] in mask {
          var got: seq<(FrameType, nat)>;
          ret, got := SendFrame(b, FRAME_TYPES[i], subs, queued);
          if ret != Ok {
            SendingStops(State(), b, mask, subs, queued, i + 1, |FRAME_TYPES|);
            return;
          }
          calls := calls + got;
        }
      }
    }

    /** `__sendFrameToSubscribers`. */
    method SendFrame(b: Buffer, t: FrameType, subs: Subscribers, queued: bool)
      returns (ret: Status, calls: seq<(FrameType, nat)>)
      requires State().Knows(b, t)
      ensures ret == if Sendable(State(), b, t, subs, queued) then Ok else Invalid
      ensures calls == if ret == Ok then Calls(t, State().Get(b, t)) else []
    {
      calls := [];
      if t.Streams() && !queued {
        return Invalid, [];
      }
      var count := GetFrameRefCount(b, t);
      if count <= 0 || count > subs.For(t) {
        return Invalid, [];
      }
      for i := 0 to count
        invariant calls == Calls(t, i)
      {
        calls := calls + [(t, i)];
      }
      ret := Ok;
    }

    /** While recording, a preview return counts the video holders too, and the other way round. */
    method OtherHolders(b: Buffer, t: FrameType) returns (n: nat)
      requires State().Valid() && State().Knows(b, t)
      ensures n == if recording && t == Video then preview[b]
                   else if recording && (t == Preview || t == Snapshot) then video[b] else 0
    {
      n := 0;
      if recording && t == Video {
        n := GetFrameRefCount(b, Preview);
      } else if recording && (t == Preview || t == Snapshot) {
        n := GetFrameRefCount(b, Video);
      }
    }

    /** `returnFrame`: a consumer is done with `b`. */
    method ReturnFrame(b: Buffer, t: FrameType)
      requires State().Valid() && (b != 0 ==> State().Knows(b, t))
      modifies this
      ensures State().Valid() && State() == if b == 0 then old(State()) else old(State()).Returned(b, t)
      ensures refills == if b != 0 && old(State()).LastReturn(b, t) then old(refills) + [(b, t)] else old(refills)
      ensures withDisplay == old(withDisplay) - if b != 0 && t == Preview then 1 else 0
      ensures withEncoder == old(withEncoder) - if b != 0 && t == Video then 1 else 0
    {
      if b == 0 {
        return;
      }
      ghost var before := State();
      ReturnedIsSet(before, b, t);
      var refCount := GetFrameRefCount(b, t);
      if t == Preview {
        withDisplay := withDisplay - 1;
      } else if t == Video {
        withEncoder := withEncoder - 1;
      }
      if refCount <= 0 {
        return;
      }
      refCount := refCount - 1;
      assert State() == before;
      SetFrameRefCount(b, t, refCount);
      assert State() == before.Returned(b, t);
      var others := OtherHolders(b, t);
      refCount := refCount + others;
      if refCount == 0 {
        refills := refills + [(b, t)];
      }
    }

    /** `startVideoCapture`. */
    method StartVideoCapture() returns (ret: Status)
      requires State().Valid()
      modifies `video, `recording
      ensures ret == if old(recording) then NoInit else Ok
      ensures State().Valid() && State() == old(State()).Started()
    {
      if recording {
        return NoInit;
      }
      var pending := preview.Keys;
      while pending != {}
        invariant pending <= preview.Keys
        invariant video == map b | b in preview.Keys - pending :: 0
        decreases pending
      {
        Inhabited(pending);
        var b :| b in pending;
        video := video[b := 0];
        pending := pending - {b};
      }
      recording := true;
      ret := Ok;
    }

    /** A turn of the loop in `stopVideoCapture`. */
    method DrainHeld(ghost before: Counts, ghost pending: set<Buffer>, b: Buffer)
      requires before.Valid() && before.recording && b in pending && pending <= before.video.Keys && b != 0
      requires State() == before.(video := Drained(before.video, pending))
      modifies this
      ensures State() == before.(video := Drained(before.video, pending - {b}))
      ensures refills == old(refills) + Refill(before, b)
    {
      DrainedNext(before, pending, b);
      var count := GetFrameRefCount(b, Video);
      if count > 0 {
        ReturnFrame(b, Video);
      }
    }

    /** The loop of `stopVideoCapture`. */
    method DrainVideo() returns (ghost log: seq<(Buffer, FrameType)>)
      requires State().Valid() && recording && 0 !in preview
      modifies this
      ensures State() == old(State().(video := Drained(video, {})))
      ensures refills == old(refills) + log && Logged(log, old(State()).FreedByStop())
    {
      ghost var before := State();
      var pending := video.Keys;
      log := [];
      assert Drained(video, pending) == video;
      assert before.FreedByStop() - pending == {};
      while pending != {}
        invariant pending <= before.video.Keys
        invariant State() == before.(video := Drained(before.video, pending))
        invariant refills == old(refills) + log && Logged(log, before.FreedByStop() - pending)
        decreases pending
      {
        Inhabited(pending);
        var b :| b in pending;
        LoggedNext(log, before.FreedByStop(), pending, b);
        DrainHeld(before, pending, b);
        log := log + Refill(before, b);
        pending := pending - {b};
      }
      assert before.FreedByStop() - {} == before.FreedByStop();
    }

    /**
      `stopVideoCapture` gives each buffer that a video consumer holds back once, and then forgets
      all video counts.
     */
    method StopVideoCapture() returns (ret: Status, ghost log: seq<(Buffer, FrameType)>)
      requires State().Valid() && 0 !in preview
      modifies this
      ensures ret == if old(recording) then Ok else NoInit
      ensures State().Valid() && State() == old(State()).Stopped()
      ensures refills == old(refills) + log && Logged(log, old(State()).FreedByStop())
    {
      log := [];
      if !recording {
        return NoInit, log;
      }
      log := DrainVideo();
      video := map[];
      recording := false;
      ret := Ok;
    }
  }

  /** What giving `b` back on behalf of a video consumer adds to the log when recording stops. */
  ghost function Refill(c: Counts, b: Buffer): seq<(Buffer, FrameType)>
    requires c.Valid()
  {
    if b in c.FreedByStop() then [(b, Video)] else []
  }

  lemma Inhabited(s: set<Buffer>)
    ensures s == {} || exists x :: x in s
  {
    if forall x :: x !in s {
      assert s == {};
    }
  }

  /** Every buffer that is not pending any more was given back once. */
  ghost function Drained(video: map<Buffer, nat>, pending: set<Buffer>): map<Buffer, nat> {
    map b | b in video :: if b in pending || video[b] == 0 then video[b] else (video[b] - 1) as nat
  }

  lemma ReturnedIsSet(c: Counts, b: Buffer, t: FrameType)
    requires c.Knows(b, t)
    ensures c.Returned(b, t) == if c.Get(b, t) > 0 then c.Set(b, t, c.Get(b, t) - 1) else c
  {
  }

  lemma DrainedNext(c: Counts, pending: set<Buffer>, b: Buffer)
    requires c.Valid() && c.recording && b in pending && pending <= c.video.Keys
    ensures var d, d' := c.(video := Drained(c.video, pending)), c.(video := Drained(c.video, pending - {b}));
            && d.Valid() && b in d.preview && d.Get(b, Video) == c.video[b]
            && d' == d.Returned(b, Video)
            && (d.LastReturn(b, Video) <==> b in c.FreedByStop())
  {
    var d := c.(video := Drained(c.video, pending));
    assert d.video.Keys == c.video.Keys;
    if c.video[b] > 0 {
      assert Drained(c.video, pending - {b}) == d.video[b := c.video[b] - 1];
    } else {
      assert Drained(c.video, pending - {b}) == d.video;
    }
  }

  /** The log `s` has each of `bs` once, given back on behalf of a video consumer, and nothing else. */
  ghost predicate Logged(s: seq<(Buffer, FrameType)>, bs: set<Buffer>) {
    && (forall i :: 0 <= i < |s| ==> s[i].0 in bs && s[i].1 == Video)
    && (forall i, j :: 0 <= i < j < |s| ==> s[i].0 != s[j].0)
    && (forall b :: b in bs ==> (b, Video) in s)
  }

  lemma LoggedNext(s: seq<(Buffer, FrameType)>, bs: set<Buffer>, pending: set<Buffer>, b: Buffer)
    requires Logged(s, bs - pending) && b in pending
    ensures Logged(s + if b in bs then [(b, Video)] else [], bs - (pending - {b}))
  {
    var t := s + if b in bs then [(b, Video)] else [];
    forall x | x in bs - (pending - {b}) ensures (x, Video) in t {
      if x == b {
        assert t[|s|] == (b, Video);
      } else {
        assert (x, Video) in s;
      }
    }
  }

  // ----- One delivery -----

  /** Counting in one more type of the mask, after those before it in order. */
  lemma DeliveredAdds(c: Counts, b: Buffer, mask: set<FrameType>, t: FrameType, subs: Subscribers)
    requires t !in mask && t != Unsupported
    requires t == Image ==> Raw !in mask
    ensures c.Delivered(b, mask + {t}, subs) == c.Delivered(b, mask, subs).Set(b, t, subs.For(t))
  {
  }

  lemma DeliveredNext(c: Counts, b: Buffer, mask: set<FrameType>, subs: Subscribers, i: nat)
    requires i < |FRAME_TYPES|
    ensures c.Delivered(b, Among(mask, i + 1), subs)
            == if FRAME_TYPES[i] !in mask then c.Delivered(b, Among(mask, i), subs)
               else c.Delivered(b, Among(mask, i), subs).Set(b, FRAME_TYPES[i], subs.For(FRAME_TYPES[i]))
  {
    var t := FRAME_TYPES[i];
    if t in mask {
      assert Among(mask, i + 1) == Among(mask, i) + {t};
      DeliveredAdds(c, b, Among(mask, i), t, subs);
    } else {
      assert Among(mask, i + 1) == Among(mask, i);
    }
  }

  lemma {:induction false} SendingStops(c: Counts, b: Buffer, mask: set<FrameType>, subs: Subscribers, queued: bool,
                                        n: nat, m: nat)
    requires n <= m <= |FRAME_TYPES| && KnowsAll(c, b, mask) && Sent(c, b, mask, subs, queued, n).0 != Ok
    ensures Sent(c, b, mask, subs, queued, m) == Sent(c, b, mask, subs, queued, n)
  {
    if n < m {
      SendingStops(c, b, mask, subs, queued, n, m - 1);
    }
  }

  /** Sending succeeds if every kind of frame can be sent, and then calls exactly the counted subscribers. */
  lemma {:induction false} SentWhat(c: Counts, b: Buffer, mask: set<FrameType>, subs: Subscribers, queued: bool, n: nat)
    requires n <= |FRAME_TYPES| && KnowsAll(c, b, mask)
    ensures Sent(c, b, mask, subs, queued, n).0 == Ok
            <==> forall t :: t in Among(mask, n) ==> Sendable(c, b, t, subs, queued)
    ensures Sent(c, b, mask, subs, queued, n).0 == Ok ==>
              forall t, k: nat ::
                (t, k) in Sent(c, b, mask, subs, queued, n).1 <==> t in Among(mask, n) && k < c.Get(b, t)
  {
    if n > 0 {
      SentWhat(c, b, mask, subs, queued, n - 1);
      var t, before := FRAME_TYPES[n - 1], Sent(c, b, mask, subs, queued, n - 1);
      forall u: FrameType
        ensures u in Among(mask, n) <==> u in Among(mask, n - 1) || (u == t && t in mask)
      {
      }
      assert t !in Among(mask, n - 1);
      if before.0 == Ok && t in mask && Sendable(c, b, t, subs, queued) {
        var calls := Calls(t, c.Get(b, t));
        forall u, k: nat
          ensures (u, k) in before.1 + calls <==> (u, k) in before.1 || (u == t && k < c.Get(b, t))
        {
          if k < c.Get(b, t) {
            assert calls[k] == (t, k);
          }
        }
      }
    }
  }

  /**
    A preview or video buffer that was just counted in reaches every subscriber its counts promise
    exactly if each kind of frame in the mask has one.
   */
  lemma DeliveryReachesAll(c: Counts, b: Buffer, mask: set<FrameType>, subs: Subscribers)
    requires c.Valid() && b in c.preview && (Video in mask ==> c.recording)
    requires forall t :: t in mask ==> t.Streams()
    ensures KnowsAll(c.Delivered(b, mask, subs), b, mask)
    ensures var (ret, calls) := Sent(c.Delivered(b, mask, subs), b, mask, subs, true, |FRAME_TYPES|);
            && (ret == Ok <==> forall t :: t in mask ==> subs.For(t) > 0)
            && (ret == Ok ==> forall t, k: nat :: (t, k) in calls <==> t in mask && k < subs.For(t))
  {
    var d := c.Delivered(b, mask, subs);
    forall t | t in mask
      ensures d.Knows(b, t) && d.Get(b, t) == subs.For(t)
    {
    }
    assert KnowsAll(d, b, mask);
    SentWhat(d, b, mask, subs, true, |FRAME_TYPES|);
    assert Among(mask, |FRAME_TYPES|) == mask;
  }

  // ----- Any interleaving of returns -----

  datatype Return = Return(buffer: Buffer, kind: FrameType)

  /** Returns of preview buffers that consumers may make while recording. */
  ghost predicate Returns(c: Counts, rs: seq<Return>) {
    forall i :: 0 <= i < |rs| ==> rs[i].kind.Streams() && rs[i].buffer in c.preview
  }

  ghost function After(c: Counts, rs: seq<Return>, n: nat): (r: Counts)
    requires c.Valid() && c.recording && Returns(c, rs) && n <= |rs|
    ensures r.Valid() && r.recording && r.preview.Keys == c.preview.Keys
  {
    if n == 0 then c else After(c, rs, n - 1).Returned(rs[n - 1].buffer, rs[n - 1].kind)
  }

  /** The `n`-th return hands `b` back to the camera. */
  ghost predicate RefillsAt(c: Counts, rs: seq<Return>, b: Buffer, n: nat)
    requires c.Valid() && c.recording && Returns(c, rs) && n < |rs|
  {
    rs[n].buffer == b && After(c, rs, n).LastReturn(b, rs[n].kind)
  }

  ghost function Refills(c: Counts, rs: seq<Return>, b: Buffer, n: nat): nat
    requires c.Valid() && c.recording && Returns(c, rs) && n <= |rs|
  {
    if n == 0 then 0 else Refills(c, rs, b, n - 1) + if RefillsAt(c, rs, b, n - 1) then 1 else 0
  }

  /** How often video (or preview) consumers gave `b` back in the first `n` returns. */
  ghost function Given(rs: seq<Return>, b: Buffer, video: bool, n: nat): nat
    requires n <= |rs|
  {
    if n == 0 then 0
    else Given(rs, b, video, n - 1) + if rs[n - 1].buffer == b && (rs[n - 1].kind == Video) == video then 1 else 0
  }

  lemma ReturnedCounts(c: Counts, b: Buffer, t: FrameType, x: Buffer)
    requires c.Valid() && c.Knows(b, t) && x in c.preview
    ensures var d := c.Returned(b, t);
            && d.Valid() && d.recording == c.recording && d.preview.Keys == c.preview.Keys
            && d.preview[x] == (if x == b && (t == Preview || t == Snapshot) then Less(c.preview[x]) else c.preview[x])
            && (c.recording ==> d.video[x] == if x == b && t == Video then Less(c.video[x]) else c.video[x])
  {
  }

  lemma LastReturnWhen(c: Counts, b: Buffer, t: FrameType)
    requires c.Valid() && c.recording && b in c.preview && t.Streams()
    ensures c.LastReturn(b, t) <==> HeldBy(c, b, t == Video) == 1 && HeldBy(c, b, t != Video) == 0
  {
  }

  ghost function Less(n: nat): nat { if n > 0 then n - 1 else 0 }

  lemma LastReturnExactly(c: Counts, b: Buffer, t: FrameType)
    requires c.Valid() && c.Knows(b, t) && b in c.preview && t.Streams()
    ensures var d := c.Returned(b, t);
            && d.Valid() && b in d.preview
            && (c.LastReturn(b, t) <==> c.Holders(b) > 0 && d.Holders(b) == 0)
  {
    ReturnedCounts(c, b, t, b);
  }

  /** How many preview, or video, consumers hold `b`. */
  ghost function HeldBy(c: Counts, b: Buffer, video: bool): nat
    requires c.Valid() && c.recording && b in c.preview
  {
    if video then c.video[b] else c.preview[b]
  }

  /** How many of `held` are left after `given` returns. */
  ghost function Left(held: nat, given: nat): nat { if given < held then held - given else 0 }

  lemma {:induction false} CountsAfter(c: Counts, rs: seq<Return>, b: Buffer, video: bool, n: nat)
    requires c.Valid() && c.recording && b in c.preview && Returns(c, rs) && n <= |rs|
    ensures HeldBy(After(c, rs, n), b, video) == Left(HeldBy(c, b, video), Given(rs, b, video, n))
  {
    if n > 0 {
      CountsAfter(c, rs, b, video, n - 1);
      var d, r := After(c, rs, n - 1), rs[n - 1];
      assert r.kind.Streams() && d.Knows(r.buffer, r.kind);
      HeldByReturned(d, r.buffer, r.kind, b, video);
      AfterOne(c, rs, n);
    }
  }

  lemma AfterOne(c: Counts, rs: seq<Return>, n: nat)
    requires c.Valid() && c.recording && Returns(c, rs) && 1 <= n <= |rs|
    ensures After(c, rs, n) == After(c, rs, n - 1).Returned(rs[n - 1].buffer, rs[n - 1].kind)
  {
  }

  lemma HeldByReturned(c: Counts, b: Buffer, t: FrameType, x: Buffer, video: bool)
    requires c.Valid() && c.recording && c.Knows(b, t) && x in c.preview && t.Streams()
    ensures var d := c.Returned(b, t);
            && d.Valid() && d.recording && x in d.preview
            && HeldBy(d, x, video)
               == if x == b && (t == Video) == video then Less(HeldBy(c, x, video)) else HeldBy(c, x, video)
  {
    ReturnedCounts(c, b, t, x);
  }

  /** All consumers that held `b` have given it back within the first `n` returns. */
  ghost predicate AllBack(c: Counts, rs: seq<Return>, b: Buffer, n: nat)
    requires c.Valid() && c.recording && b in c.preview && n <= |rs|
  {
    Given(rs, b, false, n) >= HeldBy(c, b, false) && Given(rs, b, true, n) >= HeldBy(c, b, true)
  }

  lemma RefillsWhenAllBack(c: Counts, rs: seq<Return>, b: Buffer, n: nat)
    requires c.Valid() && c.recording && b in c.preview && Returns(c, rs) && n < |rs|
    ensures RefillsAt(c, rs, b, n) <==> AllBack(c, rs, b, n + 1) && !AllBack(c, rs, b, n)
  {
    CountsAfter(c, rs, b, false, n);
    CountsAfter(c, rs, b, true, n);
    if rs[n].buffer == b {
      LastReturnWhen(After(c, rs, n), b, rs[n].kind);
    }
  }

  /**
    Main result: whatever the interleaving, the camera gets a buffer back exactly once, at the very
    return after which nobody holds it any more; returns beyond the counts change nothing.
   */
  lemma {:induction false} RefilledExactlyOnce(c: Counts, rs: seq<Return>, b: Buffer, n: nat)
    requires c.Valid() && c.recording && b in c.preview && c.Holders(b) > 0 && Returns(c, rs) && n <= |rs|
    ensures Refills(c, rs, b, n) == if AllBack(c, rs, b, n) then 1 else 0
    ensures n < |rs| ==> (RefillsAt(c, rs, b, n) <==> AllBack(c, rs, b, n + 1) && !AllBack(c, rs, b, n))
  {
    if n > 0 {
      RefilledExactlyOnce(c, rs, b, n - 1);
      if AllBack(c, rs, b, n - 1) {
        AllBackStays(c, rs, b, n - 1);
      }
    }
    if n < |rs| {
      RefillsWhenAllBack(c, rs, b, n);
    }
  }

  lemma AllBackStays(c: Counts, rs: seq<Return>, b: Buffer, n: nat)
    requires c.Valid() && c.recording && b in c.preview && n < |rs| && AllBack(c, rs, b, n)
    ensures AllBack(c, rs, b, n + 1)
  {
    assert Given(rs, b, false, n + 1) >= Given(rs, b, false, n);
    assert Given(rs, b, true, n + 1) >= Given(rs, b, true, n);
  }

  // ----- Who has the buffer, over whole runs -----

  /** The camera has exactly the preview buffers that nobody holds. */
  ghost predicate Owned(c: Counts, camera: set<Buffer>) {
    c.Valid() && camera <= c.preview.Keys && forall b :: b in c.preview ==> (c.Holders(b) == 0 <==> b in camera)
  }

  datatype Event = Deliver(buffer: Buffer, mask: set<FrameType>, subs: Subscribers)
                 | GiveBack(buffer: Buffer, kind: FrameType)
                 | Start
                 | Stop

  ghost function Next(c: Counts, e: Event): (d: Counts)
    requires c.Valid() && (e.GiveBack? ==> c.Knows(e.buffer, e.kind))
    ensures d.Valid()
  {
    match e
    case Deliver(b, mask, subs) => c.Delivered(b, mask, subs)
    case GiveBack(b, t) => c.Returned(b, t)
    case Start => c.Started()
    case Stop => c.Stopped()
  }

  /** The preview buffers the camera is asked to fill during `e`. */
  ghost function Freed(c: Counts, e: Event): set<Buffer>
    requires c.Valid() && (e.GiveBack? ==> c.Knows(e.buffer, e.kind))
  {
    match e
    case GiveBack(b, t) => if t.Streams() && c.LastReturn(b, t) then {b} else {}
    case Stop => c.FreedByStop()
    case _ => {}
  }

  ghost function CameraAfter(c: Counts, camera: set<Buffer>, e: Event): set<Buffer>
    requires c.Valid() && (e.GiveBack? ==> c.Knows(e.buffer, e.kind))
  {
    camera - (if e.Deliver? then {e.buffer} else {}) + Freed(c, e)
  }

  /** The camera delivers only a buffer it has, and to at least one subscriber. */
  ghost predicate Fair(c: Counts, camera: set<Buffer>, e: Event)
    requires c.Valid()
  {
    match e
    case Deliver(b, mask, subs) => b in camera && b in c.preview && c.Delivered(b, mask, subs).Holders(b) > 0
    case GiveBack(b, t) => c.Knows(b, t)
    case _ => true
  }

  /** Some buffer's only holders are several video consumers. */
  ghost predicate ManyVideoHoldersOnly(c: Counts)
    requires c.Valid() && c.recording
  {
    exists b :: b in c.video && c.video[b] >= 2 && c.preview[b] == 0
  }

  /**
    No step asks the camera to fill a buffer it already has, and after it the camera again has
    exactly the buffers that nobody holds. Stopping is the exception, exactly if a buffer is held
    by several video consumers only: it is then lost.
   */
  lemma StepKeepsOwned(c: Counts, camera: set<Buffer>, e: Event)
    requires Owned(c, camera) && Fair(c, camera, e)
    ensures Freed(c, e) !! camera
    ensures Owned(Next(c, e), CameraAfter(c, camera, e)) <==> !(e.Stop? && c.recording && ManyVideoHoldersOnly(c))
  {
    match e
    case Deliver(b, mask, subs) => DeliverKeepsOwned(c, camera, b, mask, subs);
    case GiveBack(b, t) => GiveBackKeepsOwned(c, camera, b, t);
    case Start =>
    case Stop =>
      if c.recording {
        StopKeepsOwned(c, camera);
      }
  }

  lemma DeliverKeepsOwned(c: Counts, camera: set<Buffer>, b: Buffer, mask: set<FrameType>, subs: Subscribers)
    requires Owned(c, camera) && Fair(c, camera, Deliver(b, mask, subs))
    ensures Owned(c.Delivered(b, mask, subs), camera - {b})
  {
    var d := c.Delivered(b, mask, subs);
    forall x | x in d.preview ensures d.Holders(x) == 0 <==> x in camera - {b} {
      assert x != b ==> d.Holders(x) == c.Holders(x);
    }
  }

  lemma GiveBackKeepsOwned(c: Counts, camera: set<Buffer>, b: Buffer, t: FrameType)
    requires Owned(c, camera) && c.Knows(b, t)
    ensures Freed(c, GiveBack(b, t)) !! camera
    ensures Owned(c.Returned(b, t), camera + Freed(c, GiveBack(b, t)))
  {
    var d, freed := c.Returned(b, t), Freed(c, GiveBack(b, t));
    forall x | x in c.preview
      ensures x in d.preview && d.Valid()
      ensures d.Holders(x) == 0 <==> x in camera + freed
      ensures x in freed ==> x !in camera
    {
      ReturnedCounts(c, b, t, x);
      if x == b && t.Streams() {
        LastReturnExactly(c, b, t);
      }
    }
    ReturnedKeys(c, b, t);
  }

  lemma ReturnedKeys(c: Counts, b: Buffer, t: FrameType)
    requires c.Valid() && c.Knows(b, t)
    ensures c.Returned(b, t).Valid() && c.Returned(b, t).preview.Keys == c.preview.Keys
    ensures t.Streams() ==> b in c.preview
  {
  }

  lemma StopKeepsOwned(c: Counts, camera: set<Buffer>)
    requires Owned(c, camera) && c.recording
    ensures c.FreedByStop() !! camera
    ensures Owned(c.Stopped(), camera + c.FreedByStop()) <==> !ManyVideoHoldersOnly(c)
  {
    forall x | x in c.FreedByStop() ensures x !in camera {
      assert c.Holders(x) > 0;
    }
    if ManyVideoHoldersOnly(c) {
      var x :| x in c.video && c.video[x] >= 2 && c.preview[x] == 0;
      assert c.Holders(x) > 0 && c.Stopped().Holders(x) == 0;
    } else {
      forall x | x in c.preview ensures c.Stopped().Holders(x) == 0 <==> x in camera + c.FreedByStop() {
        assert c.Holders(x) == c.preview[x] + c.video[x];
      }
    }
  }

  /** With at most one video subscriber every video count stays at most one. */
  lemma StepKeepsOneVideo(c: Counts, e: Event)
    requires c.Valid() && (e.GiveBack? ==> c.Knows(e.buffer, e.kind)) && (e.Deliver? ==> e.subs.video <= 1)
    requires forall b :: b in c.video ==> c.video[b] <= 1
    ensures forall b :: b in Next(c, e).video ==> Next(c, e).video[b] <= 1
  {
  }

  /** A run with at most one video subscriber, in which every step is fair. */
  ghost predicate FairRun(c: Counts, camera: set<Buffer>, es: seq<Event>)
    requires c.Valid()
    decreases |es|
  {
    es == [] ||
    (&& Fair(c, camera, es[0]) && (es[0].Deliver? ==> es[0].subs.video <= 1)
     && FairRun(Next(c, es[0]), CameraAfter(c, camera, es[0]), es[1..]))
  }

  /**
    All along the run the camera has exactly the buffers that nobody holds, and is never asked to
    fill one that it has.
   */
  ghost predicate OwnedThroughout(c: Counts, camera: set<Buffer>, es: seq<Event>)
    requires c.Valid() && FairRun(c, camera, es)
    decreases |es|
  {
    && Owned(c, camera)
    && (es != [] ==>
          && Freed(c, es[0]) !! camera
          && OwnedThroughout(Next(c, es[0]), CameraAfter(c, camera, es[0]), es[1..]))
  }

  /**
    Main result: with at most one video subscriber no run of deliveries, returns, starts and stops
    loses a buffer or hands one to the camera twice.
   */
  lemma {:induction false} NoBufferLost(c: Counts, camera: set<Buffer>, es: seq<Event>)
    requires Owned(c, camera) && FairRun(c, camera, es)
    requires forall b :: b in c.video ==> c.video[b] <= 1
    ensures OwnedThroughout(c, camera, es)
    decreases |es|
  {
    if es != [] {
      StepKeepsOneVideo(c, es[0]);
      StepKeepsOwned(c, camera, es[0]);
      NoBufferLost(Next(c, es[0]), CameraAfter(c, camera, es[0]), es[1..]);
    }
  }

  /** A delivery to one preview and two video subscribers, the preview's return, and then the stop. */
  ghost function LosingRun(b: Buffer): (Event, Event, Event) {
    (Deliver(b, {Preview, Video}, Subscribers(1, 0, 2, 0, 0)), GiveBack(b, Preview), Stop)
  }

  /**
    With two video subscribers any buffer can be lost: all three steps are fair, and after them
    nobody holds the buffer, nor does the camera have it.
   */
  lemma TwoVideoSubscribersLose(c: Counts, camera: set<Buffer>, b: Buffer)
    requires Owned(c, camera) && c.recording && b in camera
    ensures var (deliver, give, stop) := LosingRun(b);
            var (d, atDelivery) := (Next(c, deliver), CameraAfter(c, camera, deliver));
            && Fair(c, camera, deliver) && Fair(d, atDelivery, give)
            && var (e, atReturn) := (Next(d, give), CameraAfter(d, atDelivery, give));
            && Fair(e, atReturn, stop) && b in Next(e, stop).preview
            && Next(e, stop).Holders(b) == 0 && b !in CameraAfter(e, atReturn, stop)
  {
    var (deliver, give, stop) := LosingRun(b);
    var d, atDelivery := Next(c, deliver), CameraAfter(c, camera, deliver);
    assert d.preview[b] == 1 && d.video[b] == 2;
    ReturnedCounts(d, b, Preview, b);
    var e, atReturn := Next(d, give), CameraAfter(d, atDelivery, give);
    assert e.preview[b] == 0 && e.video[b] == 2 && b !in atReturn;
  }

  // ----- Playing events on an adapter -----

  /** No table has an entry for NULL. */
  ghost predicate NoNull(c: Counts) {
    0 !in c.preview && 0 !in c.video && 0 !in c.capture && 0 !in c.data
  }

  /** The camera is asked, by the returns logged in `s`, to fill each of `bs` once and no other preview buffer. */
  ghost predicate Asked(s: seq<(Buffer, FrameType)>, bs: set<Buffer>) {
    && (forall i :: 0 <= i < |s| && s[i].1.Streams() ==> s[i].0 in bs)
    && (forall i, j :: 0 <= i < j < |s| && s[i].1.Streams() && s[j].1.Streams() ==> s[i].0 != s[j].0)
    && (forall b :: b in bs ==> exists i :: 0 <= i < |s| && s[i].0 == b && s[i].1.Streams())
  }

  lemma LoggedIsAsked(s: seq<(Buffer, FrameType)>, bs: set<Buffer>)
    requires Logged(s, bs)
    ensures Asked(s, bs)
  {
    forall b | b in bs ensures exists i :: 0 <= i < |s| && s[i].0 == b && s[i].1.Streams() {
      assert (b, Video) in s;
      var i :| 0 <= i < |s| && s[i] == (b, Video);
      assert s[i].0 == b && s[i].1.Streams();
    }
  }

  /** Every event is a call on an adapter, and its log of refills is what the event frees. */
  method Handle(a: CameraAdapter, e: Event) returns (ghost log: seq<(Buffer, FrameType)>)
    requires a.State().Valid() && NoNull(a.State()) && (e.GiveBack? ==> a.State().Knows(e.buffer, e.kind))
    modifies a
    ensures a.State() == Next(old(a.State()), e) && NoNull(a.State())
    ensures a.refills == old(a.refills) + log && Asked(log, Freed(old(a.State()), e))
  {
    match e
    case Deliver(b, mask, subs) =>
      var ret := a.SetInitFrameRefCount(b, mask, subs);
      log := [];
    case GiveBack(b, t) =>
      log := if a.State().LastReturn(b, t) then [(b, t)] else [];
      AskedOnce(a.State(), b, t, log);
      a.ReturnFrame(b, t);
    case Start =>
      var ret := a.StartVideoCapture();
      log := [];
    case Stop =>
      ghost var freed := a.State().FreedByStop();
      var ret;
      ret, log := a.StopVideoCapture();
      LoggedIsAsked(log, freed);
  }

  lemma AskedOnce(c: Counts, b: Buffer, t: FrameType, log: seq<(Buffer, FrameType)>)
    requires c.Valid() && c.Knows(b, t) && log == if c.LastReturn(b, t) then [(b, t)] else []
    ensures Asked(log, Freed(c, GiveBack(b, t)))
  {
    if t.Streams() && c.LastReturn(b, t) {
      assert log[0].0 == b && log[0].1.Streams();
    }
  }

  ghost function Concat<T>(logs: seq<seq<T>>): seq<T> {
    if logs == [] then [] else Concat(logs[..|logs| - 1]) + logs[|logs| - 1]
  }

  /** For `n` events: what the camera had before each, what it was asked to fill by it, and the log of that. */
  ghost predicate Session(es: seq<Event>, n: nat, cameras: seq<set<Buffer>>, freed: seq<set<Buffer>>,
                          logs: seq<seq<(Buffer, FrameType)>>) {
    && n <= |es| && |cameras| == n + 1 && |freed| == |logs| == n
    && forall i :: 0 <= i < n ==>
         && Asked(logs[i], freed[i]) && freed[i] !! cameras[i]
         && cameras[i + 1] == cameras[i] - (if es[i].Deliver? then {es[i].buffer} else {}) + freed[i]
  }

  /**
    Main result: with at most one video subscriber, playing a fair run on an adapter asks the camera
    only for buffers it does not have, once each, and leaves it with exactly those that nobody holds.
   */
  method PlayRun(a: CameraAdapter, es: seq<Event>, ghost camera: set<Buffer>)
    returns (ghost cameras: seq<set<Buffer>>, ghost freed: seq<set<Buffer>>, ghost logs: seq<seq<(Buffer, FrameType)>>)
    requires Playable(a, camera, es)
    modifies a
    ensures Session(es, |es|, cameras, freed, logs) && cameras[0] == camera
    ensures a.refills == old(a.refills) + Concat(logs)
    ensures Owned(a.State(), cameras[|es|])
  {
    cameras, freed, logs := [camera], [], [];
    for i := 0 to |es|
      invariant Session(es, i, cameras, freed, logs) && cameras[0] == camera
      invariant a.refills == old(a.refills) + Concat(logs)
      invariant Playable(a, cameras[i], es[i..])
    {
      ghost var log, bs, next;
      SplitAt(es, i);
      log, bs, next := PlayNext(a, es[i..], cameras[i]);
      SessionGrows(es, i, cameras, freed, logs, next, bs, log);
      cameras, freed, logs := cameras + [next], freed + [bs], logs + [log];
    }
  }

  lemma SplitAt<T>(s: seq<T>, i: nat)
    requires i < |s|
    ensures s[i..][0] == s[i] && s[i..][1..] == s[i + 1..]
  {
  }

  /** The adapter and the camera are ready for the fair run `es`. */
  ghost predicate Playable(a: CameraAdapter, camera: set<Buffer>, es: seq<Event>)
    reads a
  {
    && Owned(a.State(), camera) && NoNull(a.State()) && FairRun(a.State(), camera, es)
    && forall b :: b in a.video ==> a.video[b] <= 1
  }

  /** The first event of a run. */
  method PlayNext(a: CameraAdapter, es: seq<Event>, ghost camera: set<Buffer>)
    returns (ghost log: seq<(Buffer, FrameType)>, ghost bs: set<Buffer>, ghost next: set<Buffer>)
    requires es != [] && Playable(a, camera, es)
    modifies a
    ensures a.refills == old(a.refills) + log && Asked(log, bs) && bs !! camera
    ensures next == camera - (if es[0].Deliver? then {es[0].buffer} else {}) + bs
    ensures Playable(a, next, es[1..])
  {
    ghost var c := a.State();
    StepKeepsOneVideo(c, es[0]);
    StepKeepsOwned(c, camera, es[0]);
    log := Handle(a, es[0]);
    bs, next := Freed(c, es[0]), CameraAfter(c, camera, es[0]);
  }

  lemma SessionGrows(es: seq<Event>, n: nat, cameras: seq<set<Buffer>>, freed: seq<set<Buffer>>,
                     logs: seq<seq<(Buffer, FrameType)>>, camera: set<Buffer>, bs: set<Buffer>,
                     log: seq<(Buffer, FrameType)>)
    requires Session(es, n, cameras, freed, logs) && n < |es| && Asked(log, bs) && bs !! cameras[n]
    requires camera == cameras[n] - (if es[n].Deliver? then {es[n].buffer} else {}) + bs
    ensures Session(es, n + 1, cameras + [camera], freed + [bs], logs + [log])
    ensures Concat(logs + [log]) == Concat(logs) + log
  {
    assert (logs + [log])[..|logs|] == logs;
  }
}
