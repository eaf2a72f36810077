/** The `time=HH:MM:SS.CC` field of an ffmpeg progress line, which the DVD
    ripper and the tape capture both read with the same pattern
    (backend/digitizer/ripper.py and backend/digitizer/capture.py). The
    pattern has a fixed width of sixteen characters, so the leftmost match is
    the first position where those sixteen characters fit. */
module FfmpegTime {
  import opened Wrappers
  import opened Text

  const TokenLength := 16

  /** Two ASCII digits at `i`. */
  predicate TwoDigitsAt(line: string, i: nat) {
    i + 2 <= |line| && IsDigit(line[i]) && IsDigit(line[i + 1])
  }

  function TwoDigitsValue(line: string, i: nat): nat
    requires TwoDigitsAt(line, i)
  {
    DigitValue(line[i]) * 10 + DigitValue(line[i + 1])
  }

  /** `time=DD:DD:DD.DD` starts at position `i`. */
  predicate MatchesAt(line: string, i: nat) {
    && i + TokenLength <= |line|
    && line[i] == 't' && line[i + 1] == 'i' && line[i + 2] == 'm' && line[i + 3] == 'e' && line[i + 4] == '='
    && TwoDigitsAt(line, i + 5) && line[i + 7] == ':'
    && TwoDigitsAt(line, i + 8) && line[i + 10] == ':'
    && TwoDigitsAt(line, i + 11) && line[i + 13] == '.'
    && TwoDigitsAt(line, i + 14)
  }

  /** Seconds denoted by the match at `i`: hours, minutes, seconds and centiseconds. */
  function ValueAt(line: string, i: nat): real
    requires MatchesAt(line, i)
  {
    (TwoDigitsValue(line, i + 5) * 3600 + TwoDigitsValue(line, i + 8) * 60 + TwoDigitsValue(line, i + 11)) as real
      + TwoDigitsValue(line, i + 14) as real / 100.0
  }

  /** Leftmost match at or after `from`. */
  function SearchFrom(line: string, from: nat): (r: Option<nat>)
    ensures r.Some? ==> from <= r.value && MatchesAt(line, r.value)
    ensures r.Some? ==> forall k :: from <= k < r.value ==> !MatchesAt(line, k)
    ensures r.None? ==> forall k :: from <= k ==> !MatchesAt(line, k)
    decreases |line| - from
  {
    if from + TokenLength > |line| then None
    else if MatchesAt(line, from) then Some(from)
    else SearchFrom(line, from + 1)
  }

  /** `TIME_PATTERN.search(line)` turned into seconds, or `None` without a match. */
  function ParseTime(line: string): (r: Option<real>)
    ensures r.Some? <==> exists i: nat :: MatchesAt(line, i)
    ensures r.Some? ==> 0.0 <= r.value
    ensures r.Some? ==>
      exists i: nat :: MatchesAt(line, i) && r.value == ValueAt(line, i) && (forall k: nat :: k < i ==> !MatchesAt(line, k))
  {
    match SearchFrom(line, 0)
    case None => None
    case Some(i) => Some(ValueAt(line, i))
  }

  /** The match the search finds is the first `time=` field of the line:
      whatever precedes it cannot start a match when it holds no `t`. */
  lemma ParseAfterPrefix(pre: string, token: string, post: string)
    requires 't' !in pre
    requires |token| == TokenLength && MatchesAt(token, 0)
    ensures ParseTime(pre + token + post) == Some(ValueAt(token, 0))
  {
    var line := pre + token + post;
    var i := |pre|;
    forall k: nat | k < i
      ensures !MatchesAt(line, k)
    {
      assert line[k] == pre[k];
    }
    assert line[i..i + TokenLength] == token;
    MatchIsLocal(line, i, token);
    assert SearchFrom(line, 0) == Some(i);
  }

  /** Whether a match starts at `i`, and its value, depend only on the sixteen characters there. */
  lemma MatchIsLocal(line: string, i: nat, token: string)
    requires i + TokenLength <= |line| && line[i..i + TokenLength] == token
    ensures MatchesAt(line, i) == MatchesAt(token, 0)
    ensures MatchesAt(token, 0) ==> ValueAt(line, i) == ValueAt(token, 0)
  {
    assert forall j :: 0 <= j < TokenLength ==> line[i + j] == token[j];
    if MatchesAt(token, 0) {
      assert TwoDigitsValue(line, i + 5) == TwoDigitsValue(token, 5);
      assert TwoDigitsValue(line, i + 8) == TwoDigitsValue(token, 8);
      assert TwoDigitsValue(line, i + 11) == TwoDigitsValue(token, 11);
      assert TwoDigitsValue(line, i + 14) == TwoDigitsValue(token, 14);
    }
  }

  /** A line with no `t` early enough to begin the sixteen-character field has no time. */
  lemma NoTimeField(line: string)
    requires forall k :: 0 <= k && k + TokenLength <= |line| ==> line[k] != 't'
    ensures ParseTime(line) == None
  {
    forall i: nat
      ensures !MatchesAt(line, i)
    {
    }
  }

  /** The progress line of the ripper's test reads as 90 seconds. */
  lemma RipperProgressExample()
    ensures ParseTime("frame=  100 fps=30.0 q=-1.0 size=   51200kB " + "time=00:01:30.00" + " bitrate=4652.8kbits/s speed=2.0x") == Some(90.0)
  {
    var token := "time=00:01:30.00";
    assert |token| == TokenLength && MatchesAt(token, 0) && ValueAt(token, 0) == 90.0;
    var prefix := "frame=  100 fps=30.0 q=-1.0 size=   51200kB ";
    assert forall i :: 0 <= i < |prefix| ==> prefix[i] != 't';
    ParseAfterPrefix(prefix, token, " bitrate=4652.8kbits/s speed=2.0x");
  }

  /** The progress line of the capture's test reads as 330 seconds. */
  lemma CaptureProgressExample()
    ensures ParseTime("frame=  100 fps=30.0 q=28.0 size=   5120kB " + "time=00:05:30.00" + " bitrate=1234.5kbits/s speed=1.0x") == Some(330.0)
  {
    var token := "time=00:05:30.00";
    assert |token| == TokenLength && MatchesAt(token, 0) && ValueAt(token, 0) == 330.0;
    var prefix := "frame=  100 fps=30.0 q=28.0 size=   5120kB ";
    assert forall i :: 0 <= i < |prefix| ==> prefix[i] != 't';
    ParseAfterPrefix(prefix, token, " bitrate=1234.5kbits/s speed=1.0x");
  }

  /** Ordinary log output carries no time. */
  lemma NoMatchExample()
    ensures ParseTime("Some random ffmpeg output") == None
  {
    NoTimeField("Some random ffmpeg output");
  }

  /** Times of the lines that carry one, in order. Stripping a line and
      skipping empty ones, as both readers do first, leaves this unchanged:
      the field holds no white space and an empty line holds no field. */
  function Times(lines: seq<string>): (r: seq<real>)
    ensures |r| <= |lines|
    ensures forall k :: 0 <= k < |r| ==> 0.0 <= r[k]
  {
    if lines == [] then []
    else
      var rest := Times(lines[1..]);
      match ParseTime(lines[0])
      case Some(t) => [t] + rest
      case None => rest
  }

  /** Reading lines in two batches gives the times of each batch in turn. */
  lemma {:induction false} TimesAppend(a: seq<string>, b: seq<string>)
    ensures Times(a + b) == Times(a) + Times(b)
  {
    if a == [] {
      assert a + b == b;
    } else {
      assert (a + b)[0] == a[0];
      assert (a + b)[1..] == a[1..] + b;
      TimesAppend(a[1..], b);
    }
  }

  /** A single line yields its time exactly when it carries one. */
  lemma TimesSingle(line: string)
    ensures Times([line]) == if ParseTime(line).Some? then [ParseTime(line).value] else []
  {
    assert [line][1..] == [];
  }

  predicate Nondecreasing(xs: seq<real>) {
    forall i, j :: 0 <= i <= j < |xs| ==> xs[i] <= xs[j]
  }
}
