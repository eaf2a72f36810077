/** The VHS capture card: the elapsed-time display of a running capture,
    the Start/Stop button and its `loading` flag. */
module CaptureCard {
  import opened Wrappers
  import opened Text
  import opened Json
  import Clock
  import ApiClient
  import LiveState
  import Seqs

  /** `String(v).padStart(2, "0")`. */
  function Pad2(v: int): string {
    PadZeros(IntToString(v), 2)
  }

  /** `formatElapsed(totalSeconds)`: hours, minutes and seconds, each
      floored, padded to two digits and joined with `:`. */
  function FormatElapsed(t: real): string {
    var h := (t / 3600.0).Floor;
    var m := (Clock.JsRemReal(t, 3600.0) / 60.0).Floor;
    var s := Clock.JsRemReal(t, 60.0).Floor;
    Display(h, m, s)
  }

  function Display(h: int, m: int, s: int): string {
    Pad2(h) + ":" + Pad2(m) + ":" + Pad2(s)
  }

  /** Reads an `H:MM:SS` display back into a number of seconds; `None`
      unless it is three runs of digits separated by `:`. */
  function ReadElapsed(text: string): Option<int> {
    ReadParts(Text.Split(text, ':'))
  }

  function ReadParts(parts: seq<string>): Option<int> {
    if |parts| == 3 && AllDigits(parts[0]) && AllDigits(parts[1]) && AllDigits(parts[2]) then
      Some(DigitsValue(parts[0]) * 3600 + DigitsValue(parts[1]) * 60 + DigitsValue(parts[2]))
    else None
  }

  /** A padded non-negative number is all digits and keeps its value. */
  lemma Pad2Digits(v: int)
    requires v >= 0
    ensures AllDigits(Pad2(v)) && DigitsValue(Pad2(v)) == v && |Pad2(v)| >= 2
    ensures v < 100 ==> |Pad2(v)| == 2
  {
    assert IntToString(v) == NatToString(v);
    PadZerosValue(NatToString(v), 2);
    if v < 100 {
      SmallHasTwoDigits(v);
    }
  }

  lemma SmallHasTwoDigits(v: nat)
    requires v < 100
    ensures |NatToString(v)| <= 2
  {
    if v >= 10 {
      assert NatToString(v) == NatToString(v / 10) + [DigitChar(v % 10)];
    }
  }

  lemma NoColonInDigits(d: string)
    requires AllDigits(d)
    ensures ':' !in d
  {
  }

  lemma SplitColons(a: string, b: string, c: string)
    requires ':' !in a && ':' !in b && ':' !in c
    ensures Text.Split(a + ":" + b + ":" + c, ':') == [a, b, c]
  {
    JoinThree(a, b, c, ':');
    Seqs.SplitAtFirst(a, b, c, ':');
    var parts := [a, b, c];
    assert forall k :: 0 <= k < |parts| ==> ':' !in parts[k];
    SplitJoin(parts, ':');
  }

  lemma ReadValues(a: string, b: string, c: string, h: nat, m: nat, sec: nat, v: int)
    requires AllDigits(a) && AllDigits(b) && AllDigits(c)
    requires DigitsValue(a) == h && DigitsValue(b) == m && DigitsValue(c) == sec
    requires v == h * 3600 + m * 60 + sec
    ensures ReadParts([a, b, c]) == Some(v)
  {
  }

  /** The display of non-negative parts splits back into its three padded
      parts. */
  lemma DisplaySplits(h: nat, m: nat, sec: nat)
    ensures Text.Split(Display(h, m, sec), ':') == [Pad2(h), Pad2(m), Pad2(sec)]
  {
    var a, b, c := Pad2(h), Pad2(m), Pad2(sec);
    Pad2Digits(h);
    Pad2Digits(m);
    Pad2Digits(sec);
    NoColonInDigits(a);
    NoColonInDigits(b);
    NoColonInDigits(c);
    SplitColons(a, b, c);
  }

  /** The display of non-negative parts reads back as the seconds they add
      up to. */
  lemma DisplayReadsBack(h: nat, m: nat, sec: nat, v: int)
    requires v == h * 3600 + m * 60 + sec
    ensures ReadElapsed(Display(h, m, sec)) == Some(v)
  {
    DisplaySplits(h, m, sec);
    Pad2Digits(h);
    Pad2Digits(m);
    Pad2Digits(sec);
    ReadValues(Pad2(h), Pad2(m), Pad2(sec), h, m, sec, v);
  }

  /** The whole seconds of a non-negative time, split as `formatElapsed`
      splits them. */
  lemma ElapsedParts(t: real) returns (h: nat, m: nat, sec: nat)
    requires t >= 0.0
    ensures FormatElapsed(t) == Display(h, m, sec)
    ensures m < 60 && sec < 60 && h * 3600 + m * 60 + sec == t.Floor
  {
    var f := t.Floor;
    Clock.RealSplit(t);
    Clock.SplitAddsUp(f);
    var hms := Clock.Split(f);
    h, m, sec := hms.h, hms.m, hms.s;
  }

  /** For a non-negative time the display reads back as its whole seconds. */
  lemma FormatElapsedReadsBack(t: real)
    requires t >= 0.0
    ensures ReadElapsed(FormatElapsed(t)) == Some(t.Floor)
  {
    var h, m, sec := ElapsedParts(t);
    DisplayReadsBack(h, m, sec, t.Floor);
  }

  /** Minutes and seconds are always shown as exactly two digits, hours as
      at least two. */
  lemma FormatElapsedWidths(t: real)
    requires t >= 0.0
    ensures var parts := Text.Split(FormatElapsed(t), ':');
      |parts| == 3 && |parts[0]| >= 2 && |parts[1]| == 2 && |parts[2]| == 2
  {
    var h, m, sec := ElapsedParts(t);
    DisplaySplits(h, m, sec);
    Pad2Digits(h);
    Pad2Digits(m);
    Pad2Digits(sec);
  }

  /** The elapsed text the card shows for the context's `captureElapsed`. */
  function ElapsedShown(v: JsValue): Option<string> {
    if v.Num? then Some(FormatElapsed(v.n)) else None
  }

  /** The card is in recording mode exactly when the capture status is
      the string `recording`. */
  predicate Recording(s: LiveState.State) {
    s.captureStatus == Str("recording")
  }

  /** After a `capture_status` frame, the card records exactly when the
      frame's status is `recording`. */
  lemma RecordingFollowsStatus(prev: LiveState.State, fields: map<string, JsValue>)
    ensures Recording(LiveState.OnMessage(prev, Some(LiveState.Frame("capture_status", Obj(fields)))))
      <==> LiveState.Get(fields, "status") == Str("recording")
  {
    LiveState.CaptureStatusValues(prev, fields);
  }

  /** How a statement of the handler ends: normally, or by throwing (an
      awaited promise that rejects throws its reason). */
  datatype Completion = Normal | Throw(reason: string)

  /** `await` on the request's promise: a rejection throws. */
  function Await(r: Result<JsValue>): (c: Completion)
    ensures c.Throw? <==> r.Err?
  {
    match r
    case Ok(_) => Normal
    case Err(msg) => Throw(msg)
  }

  /** `try { block } catch { handler } finally { fin }`, as section 14.15.3
      of ECMAScript 2024 evaluates it: a throwing block is replaced by the
      handler's completion; an abrupt `finally` overrides both. */
  function TryCatchFinally(block: Completion, handler: Completion, fin: Completion): Completion {
    var afterCatch := if block.Throw? then handler else block;
    if fin.Throw? then fin else afterCatch
  }

  /** `try { block } finally { fin }`, the same statement without a catch. */
  function TryFinally(block: Completion, fin: Completion): Completion {
    if fin.Throw? then fin else block
  }

  /** What a handler does that the page can see: set `loading`, or send a call. */
  datatype Effect = SetLoading(on: bool) | Send(call: ApiClient.Call)

  /** The value of `loading` after these effects, starting from `false`. */
  function Loading(effects: seq<Effect>): bool {
    if effects == [] then false
    else match effects[|effects| - 1]
      case SetLoading(on) => on
      case Send(_) => Loading(effects[..|effects| - 1])
  }

  /** The values `loading` was set to, in order. */
  function LoadingTrace(effects: seq<Effect>): seq<bool> {
    if effects == [] then []
    else
      var e := effects[|effects| - 1];
      LoadingTrace(effects[..|effects| - 1]) + (if e.SetLoading? then [e.on] else [])
  }

  /** The calls sent, in order. */
  function Calls(effects: seq<Effect>): seq<ApiClient.Call> {
    if effects == [] then []
    else
      var e := effects[|effects| - 1];
      Calls(effects[..|effects| - 1]) + (if e.Send? then [e.call] else [])
  }

  /** One press of the visible button: what the handler did and how its
      promise settled. */
  datatype Press = Press(effects: seq<Effect>, settled: Completion)

  /** `handleStop` while recording, `handleStart` otherwise, with `res` the
      server's answer: `loading` goes up, the call is sent and awaited inside
      a `try` whose empty `catch` swallows a rejection, and the `finally`
      puts `loading` down. The handler's promise resolves whatever the
      answer, and `loading` holds from before the call until it settles. */
  function Handle(recording: bool, res: ApiClient.Response): (p: Press)
    ensures p.settled == Normal
    ensures Calls(p.effects) == [if recording then ApiClient.StopCapture() else ApiClient.StartCapture()]
    ensures LoadingTrace(p.effects) == [true, false]
    ensures forall k :: 1 <= k < |p.effects| ==> Loading(p.effects[..k])
    ensures !Loading(p.effects)
  {
    var call := if recording then ApiClient.StopCapture() else ApiClient.StartCapture();
    var effects := [SetLoading(true), Send(call), SetLoading(false)];
    var settled := TryCatchFinally(Await(ApiClient.Request(res)), Normal, Normal);
    PressTrace(call);
    Press(effects, settled)
  }

  lemma PressTrace(call: ApiClient.Call)
    ensures var effects := [SetLoading(true), Send(call), SetLoading(false)];
      && Calls(effects) == [call]
      && LoadingTrace(effects) == [true, false]
      && Loading(effects[..1]) && Loading(effects[..2]) && !Loading(effects)
  {
    var effects := [SetLoading(true), Send(call), SetLoading(false)];
    var one, two := effects[..1], effects[..2];
    assert two[..1] == one && one[..0] == [] && effects[..|effects| - 1] == two;
    assert Calls(one[..0]) == [] && LoadingTrace(one[..0]) == [];
    assert Calls(one) == [] && LoadingTrace(one) == [true];
    assert Calls(two) == [call] && LoadingTrace(two) == [true];
  }

  /** The button is disabled while `loading` holds. */
  predicate ButtonEnabled(loading: bool) {
    !loading
  }

  /** It is the empty `catch` that makes a failed call end like a
      successful one: without it the handler's promise would reject exactly
      when the server answers with an error. */
  lemma CatchSwallows(res: ApiClient.Response)
    ensures TryCatchFinally(Await(ApiClient.Request(res)), Normal, Normal) == Normal
    ensures TryFinally(Await(ApiClient.Request(res)), Normal).Throw? <==> !res.ok
  {
  }

  /** A failed call ends exactly like a successful one: the same calls and
      `loading` changes, the handler's promise resolving, and the button
      enabled again once it has settled and disabled while it was pending. */
  lemma FailureLikeSuccess(recording: bool, failed: ApiClient.Response, succeeded: ApiClient.Response)
    requires !failed.ok && succeeded.ok
    ensures ApiClient.Request(failed).Err? && ApiClient.Request(succeeded).Ok?
    ensures Handle(recording, failed) == Handle(recording, succeeded)
    ensures ButtonEnabled(Loading(Handle(recording, failed).effects))
    ensures !ButtonEnabled(Loading(Handle(recording, failed).effects[..2]))
  {
    CatchSwallows(failed);
    CatchSwallows(succeeded);
  }
}
