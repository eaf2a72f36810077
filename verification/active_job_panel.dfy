/** The active-job panel: whether it shows the idle placeholder, the
    abbreviated job id, and the elapsed time of the running rip, counted by a
    one-second timer that restarts whenever the active job changes. The
    clock is a parameter (`nowMs`, milliseconds as `Date.now()` returns). */
module ActiveJobPanel {
  import opened Wrappers
  import opened Text
  import opened Json
  import Clock
  import LiveState
  import MonitorLoop
  import Database
  import Seqs

  /** The placeholder is shown when there is no active job and the drive
      is not ripping. */
  predicate Idle(s: LiveState.State) {
    !Truthy(s.activeJobId) && s.driveStatus != Str("ripping")
  }

  /** The job id as shown: its first eight characters followed by `...`,
      or `-` without an active job. `None` for a truthy id that is not a
      string, which the panel's typing rules out. */
  function JobIdShown(id: JsValue): (r: Option<string>)
    ensures !Truthy(id) ==> r == Some("-")
    ensures id.Str? && id.s != "" ==>
      && r.Some?
      && |r.value| == (if |id.s| < 8 then |id.s| else 8) + 3
      && r.value[..|r.value| - 3] <= id.s
      && r.value[|r.value| - 3..] == "..."
  {
    if !Truthy(id) then Some("-")
    else if id.Str? then Some((if |id.s| < 8 then id.s else id.s[..8]) + "...")
    else None
  }

  /** The elapsed-seconds counter and the time its current job was first
      seen, if a job is active. */
  datatype Timer = Timer(elapsed: int, startMs: Option<int>)

  const InitialTimer := Timer(0, None)

  /** The effect run when the active job changes: without a job the counter
      is reset and stops; with one, the count restarts from now (the shown
      value is kept until the first tick). */
  function OnJobChange(t: Timer, activeJobId: JsValue, nowMs: int): (r: Timer)
    ensures !Truthy(activeJobId) ==> r == InitialTimer
    ensures Truthy(activeJobId) ==> r.startMs == Some(nowMs) && r.elapsed == t.elapsed
  {
    if !Truthy(activeJobId) then Timer(0, None) else Timer(t.elapsed, Some(nowMs))
  }

  /** One tick of the interval: the whole seconds since the start. Without
      an active job no interval runs and a tick changes nothing. */
  function OnTick(t: Timer, nowMs: int): (r: Timer)
    ensures r.startMs == t.startMs
    ensures t.startMs.None? ==> r == t
    ensures t.startMs.Some? && nowMs >= t.startMs.value ==>
      r.elapsed >= 0 && r.elapsed * 1000 <= nowMs - t.startMs.value < (r.elapsed + 1) * 1000
  {
    match t.startMs
    case None => t
    case Some(start) => Timer((nowMs - start) / 1000, t.startMs)
  }

  /** Ticks at the given clock readings. */
  function Ticks(t: Timer, clock: seq<int>): Timer
    decreases |clock|
  {
    if clock == [] then t else Ticks(OnTick(t, clock[0]), clock[1..])
  }

  /** Once the active job is cleared the counter reads 0 and stays there,
      however many ticks follow. */
  lemma {:induction false} ClearedStaysZero(t: Timer, nowMs: int, clock: seq<int>)
    ensures Ticks(OnJobChange(t, Null, nowMs), clock) == InitialTimer
    decreases |clock|
  {
    if clock != [] {
      assert OnTick(InitialTimer, clock[0]) == InitialTimer;
      ClearedStaysZero(t, nowMs, clock[1..]);
    }
  }

  /** The elapsed time as shown: `Hh Mm Ss` when there are hours, `Mm Ss`
      when there are minutes, `Ss` otherwise. */
  function TimeString(elapsed: int): string {
    var parts := Clock.Split(elapsed);
    var h, m, s := parts.h, parts.m, parts.s;
    if h > 0 then IntToString(h) + "h " + IntToString(m) + "m " + IntToString(s) + "s"
    else if m > 0 then IntToString(m) + "m " + IntToString(s) + "s"
    else IntToString(s) + "s"
  }

  function UnitSeconds(u: char): int {
    if u == 'h' then 3600 else if u == 'm' then 60 else 1
  }

  /** The seconds one `<digits><unit>` token stands for. */
  function TokenValue(tok: string): Option<int> {
    if |tok| >= 2 && tok[|tok| - 1] in "hms" && AllDigits(tok[..|tok| - 1]) then
      Some(DigitsValue(tok[..|tok| - 1]) * UnitSeconds(tok[|tok| - 1]))
    else None
  }

  function SumTokens(toks: seq<string>): Option<int> {
    if toks == [] then Some(0)
    else
      match (TokenValue(toks[0]), SumTokens(toks[1..]))
      case (Some(x), Some(rest)) => Some(x + rest)
      case _ => None
  }

  /** Reads a shown time back into seconds: space-separated tokens of
      digits followed by `h`, `m` or `s`. */
  function ReadTimeString(text: string): Option<int> {
    SumTokens(Text.Split(text, ' '))
  }

  /** The tokens a non-negative elapsed time is shown as. */
  function Tokens(elapsed: int): seq<string> {
    var parts := Clock.Split(elapsed);
    var h, m, s := parts.h, parts.m, parts.s;
    if h > 0 then [IntToString(h) + "h", IntToString(m) + "m", IntToString(s) + "s"]
    else if m > 0 then [IntToString(m) + "m", IntToString(s) + "s"]
    else [IntToString(s) + "s"]
  }

  /** The shown time is its tokens joined with single spaces. */
  lemma TimeStringJoins(elapsed: int)
    ensures |Tokens(elapsed)| >= 1 && TimeString(elapsed) == Join(Tokens(elapsed), ' ')
  {
    var parts := Clock.Split(elapsed);
    var h, m, s := IntToString(parts.h), IntToString(parts.m), IntToString(parts.s);
    assert "h " == "h" + " " && "m " == "m" + " ";
    if parts.h > 0 {
      Seqs.JoinThree(h, "h", " ", m, "m", s, "s");
      JoinThree(h + "h", m + "m", s + "s", ' ');
    } else if parts.m > 0 {
      Seqs.JoinTwo(m, "m", " ", s, "s");
      JoinTwo(m + "m", s + "s", ' ');
    }
  }

  /** A token of digits and a unit letter. */
  lemma TokenOf(d: string, u: char, v: int)
    requires |d| >= 1 && AllDigits(d) && u in "hms"
    requires v == DigitsValue(d) * UnitSeconds(u)
    ensures ' ' !in d + [u]
    ensures TokenValue(d + [u]) == Some(v)
  {
    var tok := d + [u];
    assert tok[..|tok| - 1] == d;
  }

  lemma NatDigits(n: int)
    requires n >= 0
    ensures |IntToString(n)| >= 1 && AllDigits(IntToString(n)) && DigitsValue(IntToString(n)) == n
  {
    assert IntToString(n) == NatToString(n);
  }

  lemma SumOne(a: string, x: int)
    requires TokenValue(a) == Some(x)
    ensures SumTokens([a]) == Some(x)
  {
    assert [a][1..] == [];
  }

  lemma SumTwo(a: string, b: string, x: int, y: int)
    requires TokenValue(a) == Some(x) && TokenValue(b) == Some(y)
    ensures SumTokens([a, b]) == Some(x + y)
  {
    assert [a, b][1..] == [b];
    SumOne(b, y);
  }

  lemma SumThree(a: string, b: string, c: string, x: int, y: int, z: int)
    requires TokenValue(a) == Some(x) && TokenValue(b) == Some(y) && TokenValue(c) == Some(z)
    ensures SumTokens([a, b, c]) == Some(x + (y + z))
  {
    assert [a, b, c][1..] == [b, c];
    SumTwo(b, c, y, z);
  }

  /** The token of a non-negative number with a unit letter. */
  lemma NumberToken(n: int, u: char, v: int)
    requires n >= 0 && u in "hms" && v == n * UnitSeconds(u)
    ensures ' ' !in IntToString(n) + [u]
    ensures TokenValue(IntToString(n) + [u]) == Some(v)
  {
    NatDigits(n);
    TokenOf(IntToString(n), u, v);
  }

  /** The tokens of a non-negative time: no spaces inside, and together
      worth exactly the elapsed seconds. */
  lemma TokensAddUp(elapsed: int)
    requires elapsed >= 0
    ensures forall k :: 0 <= k < |Tokens(elapsed)| ==> ' ' !in Tokens(elapsed)[k]
    ensures SumTokens(Tokens(elapsed)) == Some(elapsed)
  {
    Clock.SplitAddsUp(elapsed);
    var parts := Clock.Split(elapsed);
    var x, y, z := parts.h * 3600, parts.m * 60, parts.s;
    assert x + (y + z) == elapsed;
    NumberToken(parts.h, 'h', x);
    NumberToken(parts.m, 'm', y);
    NumberToken(parts.s, 's', z);
    var a, b, c := IntToString(parts.h) + "h", IntToString(parts.m) + "m", IntToString(parts.s) + "s";
    if parts.h > 0 {
      SumThree(a, b, c, x, y, z);
    } else if parts.m > 0 {
      SumTwo(b, c, y, z);
    } else {
      SumOne(c, z);
    }
  }

  /** A non-negative elapsed time reads back from what the panel shows, and
      the shown form has three, two or one token as the time reaches an
      hour, a minute, or neither. */
  lemma TimeStringReadsBack(elapsed: int)
    requires elapsed >= 0
    ensures ReadTimeString(TimeString(elapsed)) == Some(elapsed)
    ensures |Text.Split(TimeString(elapsed), ' ')| ==
      if elapsed >= 3600 then 3 else if elapsed >= 60 then 2 else 1
  {
    TimeStringJoins(elapsed);
    TokensAddUp(elapsed);
    SplitJoin(Tokens(elapsed), ' ');
    Clock.SplitAddsUp(elapsed);
  }

  /** After a completed rip pass has been broadcast, the panel shows its
      idle placeholder and the counter stops at 0. */
  lemma IdleAfterRun(s: LiveState.State, jm: MonitorLoop.Manager, l: MonitorLoop.Loop, o: MonitorLoop.Oracle,
                     t: Timer, nowMs: int)
    requires MonitorLoop.Iterate(jm, l, o).error.None? && MonitorLoop.Iterate(jm, l, o).sent != []
    ensures var after := LiveState.Reduce(s, MonitorLoop.Frames(MonitorLoop.Iterate(jm, l, o).sent));
      && Idle(after)
      && JobIdShown(after.activeJobId) == Some("-")
      && OnJobChange(t, after.activeJobId, nowMs) == InitialTimer
  {
    MonitorLoop.FrontEndIdleAfterRun(s, jm, l, o);
  }

  /** Once the opening broadcasts of a rip have arrived, the panel is
      active and shows the new job's abbreviated id. */
  lemma ActiveAfterStart(s: LiveState.State, l: MonitorLoop.Loop, o: MonitorLoop.Oracle, outputBase: string)
    requires o.seen.Some? && !l.monitor.discPresent && o.jobId != ""
    requires Database.GetJob(l.db, o.jobId).None?
    ensures var sent := MonitorLoop.Iterate(MonitorLoop.Jobs(outputBase, o), l, o).sent;
      && |sent| >= 3
      && !Idle(LiveState.Reduce(s, MonitorLoop.Frames(sent[..3])))
      && JobIdShown(LiveState.Reduce(s, MonitorLoop.Frames(sent[..3])).activeJobId)
         == Some((if |o.jobId| < 8 then o.jobId else o.jobId[..8]) + "...")
  {
    MonitorLoop.FrontEndRippingAfterStart(s, l, o, outputBase);
  }
}
