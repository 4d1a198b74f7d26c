/**
 The pure part of `sendRandomMessage` and of the `ready` handler
 (publicidad.js): the time-of-day window, the random picks, the image-name
 filter, the delay before the next firing, and which chats get a chain.
 The hour in the America/Bogota zone and every `Math.random()` draw are inputs.
 */
module Schedule {
  import opened Chats

  const WindowStart := 5
  const WindowEnd := 22
  const HourMs: nat := 3600000
  const MinIntervalMs: nat := 1800000
  const MaxIntervalMs: nat := 3600000
  /** The fixed caption list holds three messages; the model keeps their indices. */
  const MessageCount: nat := 3
  /** The fixed list of target group ids. */
  const GroupIds: seq<string> := ["120363163961645501@g.us", "120363169895072471@g.us"]

  type Hour = h: int | 0 <= h < 24

  /** Sending is allowed from 05:00 up to, not including, 22:00. */
  predicate InWindow(hour: int)
    ensures InWindow(hour) ==> 0 < hour < 24
  {
    WindowStart <= hour < WindowEnd
  }

  /** A value of `Math.random()`: the fraction num / den, in [0, 1). */
  datatype Fraction = Fraction(num: nat, den: nat)
  type Draw = f: Fraction | f.num < f.den witness Fraction(0, 1)

  /** `Math.floor(r * len)` for a draw r. */
  function RandomIndex(d: Draw, len: nat): (i: nat)
    ensures len > 0 ==> i < len
    ensures len == 0 ==> i == 0
  {
    FloorBelow(d.num, d.den, len);
    d.num * len / d.den
  }

  lemma FloorBelow(num: nat, den: nat, len: nat)
    requires num < den
    ensures len > 0 ==> num * len / den < len
    ensures len == 0 ==> num * len / den == 0
  {
    if len > 0 {
      ProductBelow(num, den, len);
      QuotientBelow(num * len, den, len);
    }
  }

  lemma ProductBelow(num: nat, den: nat, len: nat)
    requires num < den && len > 0
    ensures num * len < den * len
  {
    assert den * len == num * len + (den - num) * len;
  }

  lemma QuotientBelow(x: nat, den: nat, len: nat)
    requires 0 < den && x < den * len
    ensures x / den < len
  {
    var q := x / den;
    assert x == den * q + x % den;
  }

  /** Every index is produced by some draw: the pick can land on any element. */
  lemma RandomIndexOnto(i: nat, len: nat)
    requires i < len
    ensures RandomIndex(Fraction(i, len), len) == i
  {
    MultipleDividedBack(i, len);
  }

  lemma MultipleDividedBack(i: nat, len: nat)
    requires 0 < len
    ensures i * len / len == i
  {
    var x := i * len;
    var q, r := x / len, x % len;
    assert x == len * q + r && 0 <= r < len;
    var k := i - q;
    assert len * k == r by {
      assert len * i == len * q + len * k;
    }
  }

  /** `Math.floor(r * (3600000 - 1800000 + 1)) + 1800000`: between half an hour
      and an hour, both ends included. */
  function RandomInterval(d: Draw): (ms: nat)
    ensures MinIntervalMs <= ms <= MaxIntervalMs
  {
    RandomIndex(d, MaxIntervalMs - MinIntervalMs + 1) + MinIntervalMs
  }

  /** Every interval in the range is produced by some draw. */
  lemma RandomIntervalOnto(ms: nat)
    requires MinIntervalMs <= ms <= MaxIntervalMs
    ensures RandomInterval(Fraction(ms - MinIntervalMs, MaxIntervalMs - MinIntervalMs + 1)) == ms
  {
    RandomIndexOnto(ms - MinIntervalMs, MaxIntervalMs - MinIntervalMs + 1);
  }

  /** The hour of day `t` hours after `hour`. */
  function HourAfter(hour: Hour, t: nat): Hour
  {
    (hour + t) % 24
  }

  /** The hour the code waits for outside the window: 22 before 22:00, else 5. */
  function AsWrittenNextHour(hour: Hour): int
  {
    if hour < 22 then 22 else 5
  }

  /** The out-of-window delay as written: whole hours from `hour` to the target
      hour, wrapping past midnight. */
  function AsWrittenOutOfWindowDelay(hour: Hour): (ms: nat)
    ensures ms % HourMs == 0 && ms < 24 * HourMs
    ensures HourAfter(hour, ms / HourMs) == AsWrittenNextHour(hour)
  {
    ((AsWrittenNextHour(hour) - hour + 24) % 24) * HourMs
  }

  lemma AsWrittenDelayValues(hour: Hour)
    requires !InWindow(hour)
    ensures hour < WindowStart ==> AsWrittenOutOfWindowDelay(hour) == (22 - hour) * HourMs
    ensures hour < WindowStart ==> 18 * HourMs <= AsWrittenOutOfWindowDelay(hour) <= 22 * HourMs
    ensures hour == 22 ==> AsWrittenOutOfWindowDelay(hour) == 7 * HourMs
    ensures hour == 23 ==> AsWrittenOutOfWindowDelay(hour) == 6 * HourMs
    ensures AsWrittenOutOfWindowDelay(hour) > 0
  {
  }

  /** Before 05:00 the code waits until 22:00, which is again outside the window,
      and from there until 05:00 of the next day: the window in between is never
      reached. From 02:00 that is 20 h and then 7 h. */
  lemma AsWrittenSkipsWindow(hour: Hour)
    requires hour < WindowStart
    ensures var wait := AsWrittenOutOfWindowDelay(hour) / HourMs;
            && (hour + wait) % 24 == 22
            && !InWindow((hour + wait) % 24)
            && hour < WindowStart < hour + wait
            && InWindow(HourAfter(hour, WindowStart - hour))
            && wait + AsWrittenOutOfWindowDelay((hour + wait) % 24) / HourMs > 24
    ensures hour == 2 ==> AsWrittenOutOfWindowDelay(hour) == 20 * HourMs
  {
    AsWrittenDelayValues(hour);
    AsWrittenDelayValues(22);
  }

  /** The delay outside the window, targeting the window's start (05:00): the
      next firing falls exactly on 05:00, and no in-window hour is passed over. */
  function OutOfWindowDelay(hour: Hour): (ms: nat)
    requires !InWindow(hour)
    ensures ms > 0 && ms % HourMs == 0
    ensures HourAfter(hour, ms / HourMs) == WindowStart
    ensures forall t: nat :: 0 < t < ms / HourMs ==> !InWindow(HourAfter(hour, t))
  {
    var wait := (WindowStart - hour + 24) % 24;
    WaitPassesNoWindowHour(hour, wait);
    wait * HourMs
  }

  lemma WaitPassesNoWindowHour(hour: Hour, wait: nat)
    requires !InWindow(hour)
    requires wait == (WindowStart - hour + 24) % 24
    ensures wait > 0 && wait * HourMs / HourMs == wait
    ensures HourAfter(hour, wait) == WindowStart
    ensures forall t: nat :: 0 < t < wait ==> !InWindow(HourAfter(hour, t))
  {
    forall t: nat | 0 < t < wait ensures !InWindow(HourAfter(hour, t)) {
      if hour < WindowStart {
        assert hour + t < WindowStart;
      } else {
        assert wait == 24 + WindowStart - hour;
        if hour + t < 24 {
          assert HourAfter(hour, t) == hour + t;
        } else {
          assert HourAfter(hour, t) == hour + t - 24;
        }
      }
    }
  }

  /** From 22:00 on the as-written delay and the one targeting 05:00 agree;
      they differ exactly before 05:00. */
  lemma AsWrittenAgreesLate(hour: Hour)
    requires !InWindow(hour)
    ensures AsWrittenOutOfWindowDelay(hour) == OutOfWindowDelay(hour) <==> hour >= WindowEnd
  {
  }

  predicate EndsWith(s: string, suffix: string)
  {
    |suffix| <= |s| && s[|s| - |suffix|..] == suffix
  }

  /** `file.endsWith('.jpg') || file.endsWith('.png')`, case-sensitive. */
  predicate IsImageName(file: string)
    ensures IsImageName(file) ==> |file| >= 4 && file[|file| - 4] == '.'
  {
    EndsWith(file, ".jpg") || EndsWith(file, ".png")
  }

  /** The image names among the folder entries, in listing order. */
  function ImageFiles(files: seq<string>): (images: seq<string>)
    ensures |images| <= |files|
    ensures forall f :: f in images <==> f in files && IsImageName(f)
  {
    if files == [] then []
    else (if IsImageName(files[0]) then [files[0]] else []) + ImageFiles(files[1..])
  }

  /** The filter distributes over concatenation, so listing order is kept. */
  lemma {:induction false} ImageFilesAppend(a: seq<string>, b: seq<string>)
    ensures ImageFiles(a + b) == ImageFiles(a) + ImageFiles(b)
  {
    if a == [] {
      assert a + b == b;
    } else {
      assert (a + b)[0] == a[0];
      assert (a + b)[1..] == a[1..] + b;
      ImageFilesAppend(a[1..], b);
    }
  }

  /** The result of `fs.readdir` on the image folder. */
  datatype Listing = ReadFailed | Listed(files: seq<string>)

  /** Everything one firing depends on besides the chat id. */
  datatype StepInput = StepInput(
    hour: Hour,
    messageDraw: Draw,
    imageDraw: Draw,
    intervalDraw: Draw,
    listing: Listing,
    sendOk: bool)   // whether loading the image and sending both succeed

  /** One message with an image, as handed to the client's send call. */
  datatype Send = Send(chatId: string, messageIndex: nat, image: string)

  datatype StepOutcome =
    | OutOfHours
    | LoadFailed
    | NoImages
    | SendFailed(send: Send)
    | Sent(send: Send)

  /** What a firing did and the delay of the timer it set (None: no timer). */
  datatype StepResult = StepResult(outcome: StepOutcome, next: Option<nat>)

  /** One firing of `sendRandomMessage(chatId)`. Outside the window it uses
      the corrected delay to 05:00; the delay as written is
      `AsWrittenOutOfWindowDelay`. */
  function Step(chatId: string, i: StepInput): (r: StepResult)
    ensures r.outcome.OutOfHours? <==> !InWindow(i.hour)
    ensures (r.outcome.Sent? || r.outcome.SendFailed?)
              <==> InWindow(i.hour) && i.listing.Listed? && ImageFiles(i.listing.files) != []
    ensures (r.outcome.Sent?)
              <==> InWindow(i.hour) && i.listing.Listed? && ImageFiles(i.listing.files) != [] && i.sendOk
    ensures (r.outcome.NoImages?)
              <==> InWindow(i.hour) && i.listing.Listed? && ImageFiles(i.listing.files) == []
    ensures r.outcome.LoadFailed? <==> InWindow(i.hour) && i.listing.ReadFailed?
    ensures r.next.None? <==> r.outcome.NoImages?
    ensures r.next.Some? && InWindow(i.hour) ==> MinIntervalMs <= r.next.value <= MaxIntervalMs
    ensures !InWindow(i.hour) ==> r.next == Some(OutOfWindowDelay(i.hour))
    ensures r.next.Some? ==> r.next.value > 0
    ensures (r.outcome.Sent? || r.outcome.SendFailed?) ==>
              && r.outcome.send.chatId == chatId
              && r.outcome.send.messageIndex < MessageCount
              && r.outcome.send.image in i.listing.files
              && IsImageName(r.outcome.send.image)
  {
    if !InWindow(i.hour) then StepResult(OutOfHours, Some(OutOfWindowDelay(i.hour)))
    else
      var message := RandomIndex(i.messageDraw, MessageCount);
      match i.listing
      case ReadFailed => StepResult(LoadFailed, Some(RandomInterval(i.intervalDraw)))
      case Listed(files) =>
        var images := ImageFiles(files);
        if images == [] then StepResult(NoImages, None)
        else
          var send := Send(chatId, message, images[RandomIndex(i.imageDraw, |images|)]);
          StepResult(if i.sendOk then Sent(send) else SendFailed(send), Some(RandomInterval(i.intervalDraw)))
  }

  /** A failed load or send still reschedules: the send outcome does not change
      the next delay. */
  lemma SendOutcomeIrrelevant(chatId: string, i: StepInput)
    ensures Step(chatId, i).next == Step(chatId, i.(sendOk := !i.sendOk)).next
  {
  }

  /** Every group chat has an id, so the `ready` handler's loop does not throw. */
  predicate GroupsHaveIds(chats: seq<Chat>)
  {
    forall i :: 0 <= i < |chats| && chats[i].isGroup ==> chats[i].id.Some?
  }

  /** The chats the `ready` handler starts a chain for, in order: groups whose
      serialized id is one of GroupIds. Reading the id of a group chat that has
      none throws, and the remaining chats are not visited. */
  function ReadyTargets(chats: seq<Chat>): (targets: seq<string>)
    ensures |targets| <= |chats|
    ensures forall t :: t in targets ==> t in GroupIds
  {
    if chats == [] then []
    else
      var c := chats[0];
      if !c.isGroup then ReadyTargets(chats[1..])
      else
        match c.id
        case None => []
        case Some(id) =>
          (if id.serialized.Some? && id.serialized.value in GroupIds then [id.serialized.value] else [])
          + ReadyTargets(chats[1..])
  }

  /** Without an id-less group chat in front, selection distributes over
      concatenation. */
  lemma {:induction false} ReadyTargetsAppend(a: seq<Chat>, b: seq<Chat>)
    requires GroupsHaveIds(a)
    ensures ReadyTargets(a + b) == ReadyTargets(a) + ReadyTargets(b)
  {
    if a == [] {
      assert a + b == b;
    } else {
      assert (a + b)[0] == a[0];
      assert (a + b)[1..] == a[1..] + b;
      assert GroupsHaveIds(a[1..]) by {
        forall i | 0 <= i < |a[1..]| && a[1..][i].isGroup ensures a[1..][i].id.Some? {
          assert a[1..][i] == a[i + 1];
        }
      }
      ReadyTargetsAppend(a[1..], b);
    }
  }

  /** A group chat without an id ends the selection: nothing after it starts. */
  lemma ReadyTargetsStops(a: seq<Chat>, c: Chat, b: seq<Chat>)
    requires GroupsHaveIds(a)
    requires c.isGroup && c.id.None?
    ensures ReadyTargets(a + [c] + b) == ReadyTargets(a)
  {
    ReadyTargetsAppend(a, [c] + b);
    assert a + [c] + b == a + ([c] + b);
    assert ([c] + b)[0] == c;
  }

  /** A chat is a target only when it is a group and its serialized id is
      listed, and its chain is started under that serialized id. */
  lemma ReadyTargetsSingle(c: Chat)
    ensures ReadyTargets([c])
              == if c.isGroup && c.id.Some? && c.id.value.serialized.Some? && c.id.value.serialized.value in GroupIds
                 then [c.id.value.serialized.value] else []
  {
    assert [c][1..] == [];
  }
}
