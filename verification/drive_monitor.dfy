/** The optical-drive monitor (backend/digitizer/drive_monitor.py): reading
    lsdvd's report into disc information, and the edge-triggered presence
    state that turns repeated polls into one detection per inserted disc.
    Running lsdvd is the environment's; only its exit status and output are
    modelled. Only ASCII digits are recognised as `\d`. */
module DriveMonitor {
  import opened Wrappers
  import opened Text
  import opened Models

  /** Python's `\s` on text: the characters `str.isspace` accepts. */
  predicate IsSpace(c: char) {
    || c == ' ' || '\t' <= c <= '\r' || '\U{1C}' <= c <= '\U{1F}'
    || c == '\U{85}' || c == '\U{A0}' || c == '\U{1680}'
    || '\U{2000}' <= c <= '\U{200A}' || c == '\U{2028}' || c == '\U{2029}'
    || c == '\U{202F}' || c == '\U{205F}' || c == '\U{3000}'
  }

  /** First position at or after `i` that is not white space (`\s*`). */
  function SkipSpaces(s: string, i: nat): (r: nat)
    requires i <= |s|
    ensures i <= r <= |s| && (r == |s| || !IsSpace(s[r]))
    ensures forall k :: i <= k < r ==> IsSpace(s[k])
    decreases |s| - i
  {
    if i < |s| && IsSpace(s[i]) then SkipSpaces(s, i + 1) else i
  }

  /** End of the run of digits starting at `i` (`\d+` is greedy). */
  function DigitRun(s: string, i: nat): (r: nat)
    requires i <= |s|
    ensures i <= r <= |s| && (r == |s| || !IsDigit(s[r]))
    ensures AllDigits(s[i..r])
    decreases |s| - i
  {
    if i < |s| && IsDigit(s[i]) then
      var r := DigitRun(s, i + 1);
      assert s[i..r] == [s[i]] + s[i + 1..r];
      r
    else i
  }

  /** `word` is spelt out at position `i`. */
  predicate WordAt(s: string, i: nat, word: string) {
    i + |word| <= |s| && s[i..i + |word|] == word
  }

  /** One `Title: N, Length: HH:MM:SS` entry: the title number and its length in seconds. */
  datatype Title = Title(number: nat, seconds: nat)

  /** A match of the title pattern at `i` and the position just after it. */
  datatype TitleMatch = TitleMatch(title: Title, end: nat)

  /** The title pattern tried at position `i`. Each part of it is either a
      fixed word, greedy white space or a greedy digit run followed by a
      non-digit, so no backtracking can change the outcome. */
  function MatchTitleAt(s: string, i: nat): (r: Option<TitleMatch>)
    ensures r.Some? ==> i < r.value.end <= |s|
    ensures r.Some? ==> WordAt(s, i, "Title:")
  {
    if !WordAt(s, i, "Title:") then None
    else
      var a := SkipSpaces(s, i + 6);
      var b := DigitRun(s, a);
      if b == a || b >= |s| || s[b] != ',' then None
      else
        var c := SkipSpaces(s, b + 1);
        if !WordAt(s, c, "Length:") then None
        else
          var d := SkipSpaces(s, c + 7);
          if d + 8 <= |s| && ClockAt(s, d) then
            Some(TitleMatch(Title(DigitsValue(s[a..b]), ClockSeconds(s, d)), d + 8))
          else None
  }

  /** `DD:DD:DD` at `d`. */
  predicate ClockAt(s: string, d: nat) {
    && d + 8 <= |s|
    && IsDigit(s[d]) && IsDigit(s[d + 1]) && s[d + 2] == ':'
    && IsDigit(s[d + 3]) && IsDigit(s[d + 4]) && s[d + 5] == ':'
    && IsDigit(s[d + 6]) && IsDigit(s[d + 7])
  }

  /** Hours, minutes and seconds of the clock at `d`, in seconds. */
  function ClockSeconds(s: string, d: nat): nat
    requires ClockAt(s, d)
  {
    (DigitValue(s[d]) * 10 + DigitValue(s[d + 1])) * 3600
      + (DigitValue(s[d + 3]) * 10 + DigitValue(s[d + 4])) * 60
      + (DigitValue(s[d + 6]) * 10 + DigitValue(s[d + 7]))
  }

  /** A match reported by the scan: where it started and what it read. */
  datatype Found = Found(start: nat, m: TitleMatch)

  /** A matcher over a text of length `len`: every match is non-empty and
      ends within the text. */
  ghost predicate Matcher(attempt: nat -> Option<TitleMatch>, len: nat) {
    forall i: nat :: attempt(i).Some? ==> i < attempt(i).value.end <= len
  }

  /** Python's `finditer` for a pattern tried by `attempt`: try each position
      from `from` in turn and resume after each match. */
  function Scan(attempt: nat -> Option<TitleMatch>, len: nat, from: nat): (r: seq<Found>)
    requires Matcher(attempt, len)
    ensures Sound(attempt, from, r) && Ordered(r) && Complete(attempt, from, r)
    decreases len - from
  {
    if from >= len then []
    else
      match attempt(from)
      case None => Scan(attempt, len, from + 1)
      case Some(m) =>
        var rest := Scan(attempt, len, m.end);
        ScanStep(attempt, from, m, rest);
        [Found(from, m)] + rest
  }

  /** The scan's three promises, from position `from` on: every reported
      match is one, they do not overlap, and every match is reported or lies
      inside a reported one. */
  ghost predicate Sound(attempt: nat -> Option<TitleMatch>, from: nat, r: seq<Found>) {
    forall k :: 0 <= k < |r| ==> from <= r[k].start && attempt(r[k].start) == Some(r[k].m)
  }

  predicate Ordered(r: seq<Found>) {
    forall k :: 0 <= k < |r| - 1 ==> r[k].m.end <= r[k + 1].start
  }

  ghost predicate Complete(attempt: nat -> Option<TitleMatch>, from: nat, r: seq<Found>) {
    forall p: nat :: from <= p && attempt(p).Some? ==> Covered(r, p)
  }

  lemma ScanStep(attempt: nat -> Option<TitleMatch>, from: nat, m: TitleMatch, rest: seq<Found>)
    requires attempt(from) == Some(m) && from < m.end
    requires Sound(attempt, m.end, rest) && Ordered(rest) && Complete(attempt, m.end, rest)
    ensures Sound(attempt, from, [Found(from, m)] + rest)
    ensures Ordered([Found(from, m)] + rest)
    ensures Complete(attempt, from, [Found(from, m)] + rest)
  {
    var r := [Found(from, m)] + rest;
    assert forall k :: 1 <= k < |r| ==> r[k] == rest[k - 1];
    forall p | from <= p && attempt(p).Some?
      ensures Covered(r, p)
    {
      if p < m.end {
        assert r[0].start == p || r[0].start < p < r[0].m.end;
      } else {
        assert Covered(rest, p);
        var k :| 0 <= k < |rest| && (rest[k].start == p || rest[k].start < p < rest[k].m.end);
        assert r[k + 1] == rest[k];
      }
    }
  }

  /** The title pattern as a matcher over `s`. */
  function TitleAttempt(s: string): (attempt: nat -> Option<TitleMatch>)
    ensures Matcher(attempt, |s|)
    ensures forall i: nat :: attempt(i) == MatchTitleAt(s, i)
  {
    (i: nat) => MatchTitleAt(s, i)
  }

  /** `TITLE_PATTERN.finditer(s)`. */
  function FindTitles(s: string): (r: seq<Found>)
    ensures Sound(TitleAttempt(s), 0, r) && Ordered(r) && Complete(TitleAttempt(s), 0, r)
  {
    Scan(TitleAttempt(s), |s|, 0)
  }

  /** Position `p` is where a reported match starts, or lies inside one. */
  predicate Covered(found: seq<Found>, p: nat) {
    exists k :: 0 <= k < |found| && (found[k].start == p || found[k].start < p < found[k].m.end)
  }

  /** The titles the scan read, in order. */
  function Titles(s: string): (r: seq<Title>)
    ensures |r| == |FindTitles(s)|
    ensures forall k :: 0 <= k < |r| ==> r[k] == FindTitles(s)[k].m.title
  {
    var found := FindTitles(s);
    seq(|found|, k requires 0 <= k < |found| => found[k].m.title)
  }

  /** `Longest track:` followed by white space and at least one digit at `i`. */
  predicate LongestAt(s: string, i: nat) {
    WordAt(s, i, "Longest track:") && SkipSpaces(s, i + 14) < DigitRun(s, SkipSpaces(s, i + 14))
  }

  function LongestValue(s: string, i: nat): nat
    requires LongestAt(s, i)
  {
    var a := SkipSpaces(s, i + 14);
    DigitsValue(s[a..DigitRun(s, a)])
  }

  /** `LONGEST_PATTERN.search(s)` from `from`: the number after the leftmost match. */
  function LongestTrack(s: string, from: nat): (r: Option<nat>)
    ensures r.None? ==> forall p :: from <= p ==> !LongestAt(s, p)
    ensures r.Some? ==>
      exists p :: (from <= p && LongestAt(s, p) && r.value == LongestValue(s, p)
        && (forall q :: from <= q < p ==> !LongestAt(s, q)))
    decreases |s| - from
  {
    if from >= |s| then None
    else if LongestAt(s, from) then Some(LongestValue(s, from))
    else LongestTrack(s, from + 1)
  }

  /** Index of the first title of greatest length, as `max(..., key=...)` picks it. */
  function FirstLongest(titles: seq<Title>): (k: nat)
    requires |titles| >= 1
    ensures k < |titles|
    ensures forall j :: 0 <= j < |titles| ==> titles[j].seconds <= titles[k].seconds
    ensures forall j :: 0 <= j < k ==> titles[j].seconds < titles[k].seconds
  {
    if |titles| == 1 then 0
    else
      var k := FirstLongest(titles[..|titles| - 1]);
      if titles[|titles| - 1].seconds > titles[k].seconds then |titles| - 1 else k
  }

  /** The main title: lsdvd's own choice when it names one, else the first
      longest title, else title 1. */
  function MainTitle(titles: seq<Title>, longest: Option<nat>): (n: nat)
    ensures longest.Some? ==> n == longest.value
    ensures longest.None? && |titles| == 0 ==> n == 1
    ensures longest.None? && |titles| > 0 ==>
      exists k :: 0 <= k < |titles| && titles[k].number == n
        && (forall j :: 0 <= j < |titles| ==> titles[j].seconds <= titles[k].seconds)
        && (forall j :: 0 <= j < k ==> titles[j].seconds < titles[k].seconds)
  {
    match longest
    case Some(n) => n
    case None => if |titles| == 0 then 1 else titles[FirstLongest(titles)].number
  }

  /** Length of the first title numbered `n`, or 0 when none is. */
  function DurationOf(titles: seq<Title>, n: nat): (d: real)
    ensures (forall k :: 0 <= k < |titles| ==> titles[k].number != n) ==> d == 0.0
    ensures forall k :: (0 <= k < |titles| && titles[k].number == n && (forall j :: 0 <= j < k ==> titles[j].number != n)
      ==> d == titles[k].seconds as real)
  {
    if |titles| == 0 then 0.0
    else if titles[0].number == n then titles[0].seconds as real
    else
      var d := DurationOf(titles[1..], n);
      assert forall k :: 1 <= k < |titles| ==> titles[k] == titles[1..][k - 1];
      d
  }

  /** `parse_lsdvd`: how many titles the report lists, the main one and its length. */
  function ParseLsdvd(output: string): (info: DiscInfo)
    ensures info.titleCount == |Titles(output)|
    ensures LongestTrack(output, 0).Some? ==> info.mainTitle == LongestTrack(output, 0).value
    ensures LongestTrack(output, 0).None? && |Titles(output)| == 0 ==> info.mainTitle == 1
    ensures LongestTrack(output, 0).None? && |Titles(output)| > 0 ==>
      exists k :: 0 <= k < |Titles(output)| && Titles(output)[k].number == info.mainTitle
        && (forall j :: 0 <= j < |Titles(output)| ==> Titles(output)[j].seconds <= Titles(output)[k].seconds)
        && (forall j :: 0 <= j < k ==> Titles(output)[j].seconds < Titles(output)[k].seconds)
    ensures (forall k :: 0 <= k < |Titles(output)| ==> Titles(output)[k].number != info.mainTitle) ==> info.duration == 0.0
    ensures forall k :: (0 <= k < |Titles(output)| && Titles(output)[k].number == info.mainTitle
                          && (forall j :: 0 <= j < k ==> Titles(output)[j].number != info.mainTitle))
                        ==> info.duration == Titles(output)[k].seconds as real
  {
    var titles := Titles(output);
    var main := MainTitle(titles, LongestTrack(output, 0));
    DiscInfo(|titles|, main, DurationOf(titles, main))
  }

  /** How a run of lsdvd went. */
  datatype LsdvdRun = Exited(code: int, stdout: string) | Raised

  /** `check_disc`: disc information when lsdvd succeeded, else none. */
  function CheckDisc(run: LsdvdRun): (r: Option<DiscInfo>)
    ensures r.Some? <==> run.Exited? && run.code == 0
    ensures r.Some? ==> r.value == ParseLsdvd(run.stdout)
  {
    match run
    case Exited(code, stdout) => if code == 0 then Some(ParseLsdvd(stdout)) else None
    case Raised => None
  }

  /** The monitor's status and whether it has already reported the disc in the drive. */
  datatype Monitor = Monitor(status: DriveStatus, discPresent: bool)

  const Initial := Monitor(Empty, false)

  /** What a poll returns: the status and, on detection only, the disc information. */
  datatype Poll = Poll(status: DriveStatus, info: Option<DiscInfo>)

  /** `poll_once` given what `check_disc` found. */
  function PollOnce(m: Monitor, seen: Option<DiscInfo>): (r: (Monitor, Poll))
    ensures r.1.info.Some? <==> seen.Some? && !m.discPresent
    ensures r.1.info.Some? ==> r.1.info == seen && r.0 == Monitor(DiscDetected, true) && r.1.status == DiscDetected
    ensures seen.None? && m.discPresent ==> r.0 == Monitor(Empty, false) && r.1 == Poll(Empty, None)
    ensures seen.Some? == m.discPresent ==> r.0 == m && r.1 == Poll(m.status, None)
    ensures r.0.discPresent == seen.Some?
  {
    if seen.Some? && !m.discPresent then
      (Monitor(DiscDetected, true), Poll(DiscDetected, seen))
    else if seen.None? && m.discPresent then
      (Monitor(Empty, false), Poll(Empty, None))
    else (m, Poll(m.status, None))
  }

  /** `set_ripping` changes only the status. */
  function SetRipping(m: Monitor): (r: Monitor)
    ensures r.status == DriveRipping && r.discPresent == m.discPresent
  {
    m.(status := DriveRipping)
  }

  /** `set_empty` also forgets the disc, so the next poll that sees one reports it. */
  function SetEmpty(m: Monitor): (r: Monitor)
    ensures r == Initial
  {
    Monitor(Empty, false)
  }

  /** Polls in order; the returned polls are what each call returned. */
  function PollAll(m: Monitor, seen: seq<Option<DiscInfo>>): (r: (Monitor, seq<Poll>))
    ensures |r.1| == |seen|
    decreases |seen|
  {
    if seen == [] then (m, [])
    else
      var (m1, p) := PollOnce(m, seen[0]);
      var (m2, ps) := PollAll(m1, seen[1..]);
      (m2, [p] + ps)
  }

  /** A disc that stays in the drive is reported by the first poll that sees
      it and by no later one. */
  lemma {:induction false} ReportedOnce(m: Monitor, seen: seq<Option<DiscInfo>>)
    requires |seen| >= 1 && forall k :: 0 <= k < |seen| ==> seen[k].Some?
    ensures PollAll(m, seen).1[0].info.Some? <==> !m.discPresent
    ensures forall k :: 1 <= k < |seen| ==> PollAll(m, seen).1[k].info.None?
    decreases |seen|
  {
    var (m1, p) := PollOnce(m, seen[0]);
    assert m1.discPresent;
    StaysQuiet(m1, seen[1..]);
  }

  lemma {:induction false} StaysQuiet(m: Monitor, seen: seq<Option<DiscInfo>>)
    requires m.discPresent && forall k :: 0 <= k < |seen| ==> seen[k].Some?
    ensures forall k :: 0 <= k < |seen| ==> PollAll(m, seen).1[k].info.None?
    ensures PollAll(m, seen).0 == m
    decreases |seen|
  {
    if seen != [] {
      StaysQuiet(m, seen[1..]);
      var ps := PollAll(m, seen[1..]).1;
      assert PollAll(m, seen).1 == [Poll(m.status, None)] + ps;
    }
  }

  /** After `set_empty`, a disc still in the drive is reported again. */
  lemma SetEmptyRearms(m: Monitor, info: DiscInfo)
    ensures PollOnce(SetEmpty(m), Some(info)).1 == Poll(DiscDetected, Some(info))
  {
  }
}
