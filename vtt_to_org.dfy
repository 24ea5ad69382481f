/**
 * The subtitle pass of src/VideoToEPUB.py: a WebVTT file, read as a list of
 * lines, becomes the lines of an Org outline with one chapter per cue, and
 * one screenshot request per cue for ffmpeg.
 *
 * Strings are Python 3 `str` values, lines keep the newline `readlines`
 * leaves on them, and the ffmpeg calls are recorded as requests instead of
 * being made.
 */
module VttToOrg {
  import opened Wrappers
  import opened SeqFacts

  /** Python's `str.isspace` for one character. */
  predicate IsSpace(c: char) {
    var n := c as int;
    n == 0x20 || 0x09 <= n <= 0x0D || 0x1C <= n <= 0x1F || n == 0x85 || n == 0xA0
    || n == 0x1680 || 0x2000 <= n <= 0x200A || n == 0x2028 || n == 0x2029
    || n == 0x202F || n == 0x205F || n == 0x3000
  }

  /** A line with nothing but white space in it. */
  predicate IsBlank(s: string) {
    forall k :: 0 <= k < |s| ==> IsSpace(s[k])
  }

  /** `lstrip()`: the line without its leading white space. */
  function StripLeading(s: string): string {
    if s != [] && IsSpace(s[0]) then StripLeading(s[1..]) else s
  }

  /** `rstrip()`: the line without its trailing white space. */
  function StripTrailing(s: string): string {
    if s != [] && IsSpace(s[|s| - 1]) then StripTrailing(s[..|s| - 1]) else s
  }

  /** What `lstrip()` removes is white space, and what it keeps starts with none. */
  lemma {:induction false} StripLeadingFacts(s: string)
    ensures var r := StripLeading(s);
      && |r| <= |s| && r == s[|s| - |r|..]
      && (forall k :: 0 <= k < |s| - |r| ==> IsSpace(s[k]))
      && (r != [] ==> !IsSpace(r[0]))
  {
    if s != [] && IsSpace(s[0]) {
      StripLeadingFacts(s[1..]);
    }
  }

  /** What `rstrip()` removes is white space, and what it keeps ends with none. */
  lemma {:induction false} StripTrailingFacts(s: string)
    ensures var r := StripTrailing(s);
      && |r| <= |s| && r == s[..|r|]
      && (forall k :: |r| <= k < |s| ==> IsSpace(s[k]))
      && (r != [] ==> !IsSpace(r[|r| - 1]))
  {
    if s != [] && IsSpace(s[|s| - 1]) {
      StripTrailingFacts(s[..|s| - 1]);
    }
  }

  /**
   * `strip()`: the line without white space at either end.  Nothing is
   * left exactly when the line is blank, so `if line.strip():` asks whether
   * the line holds anything but white space.
   */
  function Strip(s: string): (r: string)
    ensures r == [] <==> IsBlank(s)
    ensures r != [] ==> !IsSpace(r[0]) && !IsSpace(r[|r| - 1])
  {
    var left := StripLeading(s);
    StripLeadingFacts(s);
    StripTrailingFacts(left);
    assert left != [] ==> left[0] == s[|s| - |left|];
    assert IsBlank(s) ==> left == [];
    assert StripTrailing(left) == [] ==> left == [];
    if StripTrailing(left) != [] then
      assert StripTrailing(left)[0] == left[0];
      StripTrailing(left)
    else StripTrailing(left)
  }

  /** The characters `-->` start at offset k. */
  predicate ArrowAt(s: string, k: nat) {
    k + 2 < |s| && s[k] == '-' && s[k + 1] == '-' && s[k + 2] == '>'
  }

  /** `'-->' in line`: the line is a cue timing line. */
  function HasArrow(s: string): (b: bool)
    ensures b <==> exists k: nat :: ArrowAt(s, k)
    decreases |s|
  {
    if |s| < 3 then false
    else if ArrowAt(s, 0) then true
    else
      assert (exists k: nat :: ArrowAt(s[1..], k)) <==> (exists k: nat :: ArrowAt(s, k)) by {
        forall k: nat | ArrowAt(s[1..], k) ensures ArrowAt(s, k + 1) {
        }
        forall k: nat | ArrowAt(s, k) ensures k >= 1 && ArrowAt(s[1..], k - 1) {
        }
      }
      HasArrow(s[1..])
  }

  predicate IsDigit(c: char) {
    '0' <= c <= '9'
  }

  predicate AllDigits(s: string) {
    forall k :: 0 <= k < |s| ==> IsDigit(s[k])
  }

  function DigitValue(c: char): nat
    requires IsDigit(c)
  {
    c as int - '0' as int
  }

  function DigitChar(d: nat): (c: char)
    requires d < 10
    ensures IsDigit(c) && DigitValue(c) == d
  {
    ('0' as int + d) as char
  }

  /** The value of a run of decimal digits, most significant first. */
  function DigitsValue(s: string): nat
    requires AllDigits(s)
    decreases |s|
  {
    if s == [] then 0 else DigitsValue(s[..|s| - 1]) * 10 + DigitValue(s[|s| - 1])
  }

  /**
   * `int(text)` on stripped text: an optional sign and one or more ASCII
   * digits; anything else is a ValueError, here None.
   */
  function ParseInt(s: string): Option<int> {
    if s != [] && (s[0] == '+' || s[0] == '-') then
      if |s| > 1 && AllDigits(s[1..]) then
        var v: int := DigitsValue(s[1..]);
        Some(if s[0] == '-' then -v else v)
      else None
    else if s != [] && AllDigits(s) then Some(DigitsValue(s))
    else None
  }

  /** `str(n)` for a natural number: decimal digits without leading zeros. */
  function NatToString(n: nat): (s: string)
    ensures s != [] && AllDigits(s)
    ensures s[0] == '0' ==> n == 0
    decreases n
  {
    if n < 10 then [DigitChar(n)] else NatToString(n / 10) + [DigitChar(n % 10)]
  }

  /** `str(i)` for any integer. */
  function IntToString(i: int): (s: string)
    ensures s != [] && (s[0] == '-' <==> i < 0)
  {
    if i < 0 then "-" + NatToString(-i) else NatToString(i)
  }

  lemma {:induction false} NatToStringValue(n: nat)
    ensures DigitsValue(NatToString(n)) == n
    decreases n
  {
    if n >= 10 {
      var s := NatToString(n);
      NatToStringValue(n / 10);
      assert s[..|s| - 1] == NatToString(n / 10);
    }
  }

  /** `int(str(i)) == i`: the number read back from its decimal form. */
  lemma ParseIntToString(i: int)
    ensures ParseInt(IntToString(i)) == Some(i)
  {
    var d := if i < 0 then NatToString(-i) else NatToString(i);
    NatToStringValue(if i < 0 then -i else i);
    if i < 0 {
      var s := "-" + d;
      assert s[0] == '-' && s[1..] == d;
      assert ParseInt(s) == Some(i);
    } else {
      assert IsDigit(d[0]);
      assert ParseInt(d) == Some(DigitsValue(d));
    }
  }

  /** What ffmpeg is asked for at one cue: a frame at a time stamp, saved under a name. */
  datatype Screenshot = Screenshot(timestamp: string, imageName: string)

  /** The exceptions the loop can raise. */
  datatype ConvertError =
      /** A timing line before any other line: `'* ' + None` is a TypeError. */
    | NoPreviousLine(timingLine: string)
      /** The line before a timing line is not an integer: `int` raises ValueError. */
    | NotASubtitleNumber(previousLine: string)

  /** The loop's variables: `outputLines`, `accumulatedText`, `previousLine` and the screenshots asked for. */
  datatype Converter = Converter(outputLines: seq<string>, accumulatedText: seq<string>,
                                 previousLine: Option<string>, screenshots: seq<Screenshot>)

  /** The two results of a conversion: the lines of the .org file and the frames to extract. */
  datatype Outline = Outline(outputLines: seq<string>, screenshots: seq<Screenshot>)

  function TitleLine(videoName: string): string {
    "#+TITLE:" + videoName + "\n\n"
  }

  /** The file name of the screenshot of a subtitle number. */
  function ImageName(n: int): (name: string)
    ensures |name| > 4 && name[|name| - 4..] == ".jpg"
  {
    IntToString(n) + ".jpg"
  }

  /** The Org link to the screenshot of a subtitle number, on a paragraph of its own. */
  function ImageLink(n: int): string {
    "\n[[file:" + ImageName(n) + "]]\n\n"
  }

  /** `line[:12]`: the cue's start time `hh:mm:ss.ttt`. */
  function Timestamp(line: string): (t: string)
    ensures |t| == if |line| < 12 then |line| else 12
    ensures t == line[..|t|]
  {
    if |line| <= 12 then line else line[..12]
  }

  /** `accumulatedText[:-1]` as guarded by `if accumulatedText:`. */
  function DropLast(xs: seq<string>): seq<string> {
    if xs == [] then [] else xs[..|xs| - 1]
  }

  /** `subtitleLines[1:]`. */
  function Tail(lines: seq<string>): seq<string> {
    if lines == [] then [] else lines[1..]
  }

  /** The loop's variables before the first subtitle line. */
  function Begin(videoName: string): Converter {
    Converter([TitleLine(videoName)], [], None, [])
  }

  /** One iteration of the loop over the subtitle lines. */
  function StepLine(c: Converter, line: string): (r: Result<Converter, ConvertError>)
    ensures r.Err? <==> HasArrow(line) && (c.previousLine.None? || ParseInt(Strip(c.previousLine.value)).None?)
    ensures r.Ok? ==> r.value.previousLine == Some(line)
    ensures r.Ok? ==> c.outputLines <= r.value.outputLines && c.screenshots <= r.value.screenshots
    ensures r.Ok? ==> |r.value.screenshots| == |c.screenshots| + (if HasArrow(line) then 1 else 0)
  {
    if HasArrow(line) then
      match c.previousLine
      case None => Err(NoPreviousLine(line))
      case Some(previous) =>
        match ParseInt(Strip(previous))
        case None => Err(NotASubtitleNumber(previous))
        case Some(n) =>
          Ok(Converter(c.outputLines + DropLast(c.accumulatedText) + ["* " + previous, ImageLink(n)],
                       [], Some(line), c.screenshots + [Screenshot(Timestamp(line), ImageName(n))]))
    else if Strip(line) != [] then
      Ok(c.(accumulatedText := c.accumulatedText + [line], previousLine := Some(line)))
    else
      Ok(c.(previousLine := Some(line)))
  }

  /** The loop run over a list of lines, from the given variables. */
  function RunLines(c: Converter, lines: seq<string>): Result<Converter, ConvertError>
    decreases |lines|
  {
    if lines == [] then Ok(c)
    else
      match RunLines(c, lines[..|lines| - 1])
      case Err(e) => Err(e)
      case Ok(d) => StepLine(d, lines[|lines| - 1])
  }

  /** The whole conversion of a subtitle file, its first line skipped. */
  function OrgOutline(videoName: string, subtitleLines: seq<string>): Result<Outline, ConvertError> {
    match RunLines(Begin(videoName), Tail(subtitleLines))
    case Err(e) => Err(e)
    case Ok(c) => Ok(Outline(c.outputLines, c.screenshots))
  }

  /**
   * The body of main between reading the subtitle file and writing the
   * .org file: the loop with its four variables.  An exception ends the
   * conversion before the .org file is written; the screenshots ffmpeg
   * already took for earlier cues stay on disk, and the error result does
   * not list them.
   */
  method ConvertSubtitles(videoName: string, subtitleLines: seq<string>) returns (r: Result<Outline, ConvertError>)
    ensures r == OrgOutline(videoName, subtitleLines)
  {
    var outputLines := [TitleLine(videoName)];
    var accumulatedText: seq<string> := [];
    var previousLine: Option<string> := None;
    var screenshots: seq<Screenshot> := [];
    var rest := Tail(subtitleLines);
    for i := 0 to |rest|
      invariant RunLines(Begin(videoName), rest[..i]) == Ok(Converter(outputLines, accumulatedText, previousLine, screenshots))
    {
      var subtitleLine := rest[i];
      ghost var before := Converter(outputLines, accumulatedText, previousLine, screenshots);
      RunPrefix(Begin(videoName), rest, i);
      if HasArrow(subtitleLine) {
        if accumulatedText != [] {
          accumulatedText := accumulatedText[..|accumulatedText| - 1];
        }
        outputLines := outputLines + accumulatedText;
        if previousLine.None? {
          r := Err(NoPreviousLine(subtitleLine));
          ErrorEndsRun(Begin(videoName), rest, i + 1);
          return;
        }
        outputLines := outputLines + ["* " + previousLine.value];
        var subtitleNumber := ParseInt(Strip(previousLine.value));
        if subtitleNumber.None? {
          r := Err(NotASubtitleNumber(previousLine.value));
          ErrorEndsRun(Begin(videoName), rest, i + 1);
          return;
        }
        var outputImageName := ImageName(subtitleNumber.value);
        var screenshotTimestamp := Timestamp(subtitleLine);
        screenshots := screenshots + [Screenshot(screenshotTimestamp, outputImageName)];
        outputLines := outputLines + ["\n[[file:" + outputImageName + "]]\n\n"];
        AppendTwo(before.outputLines + DropLast(before.accumulatedText), "* " + previousLine.value,
                  ImageLink(subtitleNumber.value));
        accumulatedText := [];
      } else if Strip(subtitleLine) != [] {
        accumulatedText := accumulatedText + [subtitleLine];
      }
      previousLine := Some(subtitleLine);
      assert StepLine(before, subtitleLine) == Ok(Converter(outputLines, accumulatedText, previousLine, screenshots));
    }
    WholePrefix(rest);
    r := Ok(Outline(outputLines, screenshots));
  }

  /** The loop after one more line. */
  lemma RunPrefix(c: Converter, xs: seq<string>, i: nat)
    requires i < |xs|
    ensures RunLines(c, xs[..i + 1]) ==
      match RunLines(c, xs[..i])
      case Err(e) => Err(e)
      case Ok(d) => StepLine(d, xs[i])
  {
    PrefixSnoc(xs, i);
  }

  /** An exception ends the loop: a prefix that fails makes the whole list fail the same way. */
  lemma ErrorEndsRun(c: Converter, xs: seq<string>, i: nat)
    requires i <= |xs| && RunLines(c, xs[..i]).Err?
    ensures RunLines(c, xs) == RunLines(c, xs[..i])
  {
    RunAppend(c, xs[..i], xs[i..]);
    PrefixAndRest(xs, i);
  }

  /** Running two lists of lines one after the other is running their concatenation. */
  lemma {:induction false} RunAppend(c: Converter, xs: seq<string>, ys: seq<string>)
    ensures RunLines(c, xs + ys) ==
      match RunLines(c, xs)
      case Err(e) => Err(e)
      case Ok(d) => RunLines(d, ys)
    decreases |ys|
  {
    if ys == [] {
      assert xs + ys == xs;
    } else {
      var zs := xs + ys;
      assert zs[..|zs| - 1] == xs + ys[..|ys| - 1];
      RunAppend(c, xs, ys[..|ys| - 1]);
    }
  }

  /** Lines are only ever appended: the output and the screenshots so far stay as they are. */
  lemma {:induction false} RunOnlyAppends(c: Converter, lines: seq<string>)
    ensures RunLines(c, lines).Ok? ==>
      c.outputLines <= RunLines(c, lines).value.outputLines
      && c.screenshots <= RunLines(c, lines).value.screenshots
    decreases |lines|
  {
    if lines != [] {
      RunOnlyAppends(c, lines[..|lines| - 1]);
    }
  }

  /** The title line comes first in every outline. */
  lemma TitleComesFirst(videoName: string, subtitleLines: seq<string>)
    ensures OrgOutline(videoName, subtitleLines).Ok? ==>
      var out := OrgOutline(videoName, subtitleLines).value.outputLines;
      out != [] && out[0] == TitleLine(videoName)
  {
    RunOnlyAppends(Begin(videoName), Tail(subtitleLines));
  }

  /** The first line (the WEBVTT format line) has no effect at all. */
  lemma FirstLineIgnored(videoName: string, first: string, other: string, rest: seq<string>)
    ensures OrgOutline(videoName, [first] + rest) == OrgOutline(videoName, [other] + rest)
  {
    assert Tail([first] + rest) == rest == Tail([other] + rest);
  }

  /** A line that can be accumulated as subtitle text: not blank, not a timing line. */
  predicate IsTextLine(line: string) {
    Strip(line) != [] && !HasArrow(line)
  }

  /**
   * A line of the outline after the title: a text line of the input, a
   * chapter heading made of an input line, or a screenshot link.
   */
  ghost predicate IsBodyLine(lines: seq<string>, o: string) {
    || (o in lines && IsTextLine(o))
    || (exists l :: l in lines && o == "* " + l)
    || (exists n :: o == ImageLink(n))
  }

  /** A screenshot taken at the start of one of the given timing lines. */
  ghost predicate TakenAtTimingLine(lines: seq<string>, shot: Screenshot) {
    exists l :: l in lines && HasArrow(l) && shot.timestamp == Timestamp(l)
  }

  /** Everything the loop holds is drawn from the given input lines. */
  ghost predicate DrawnFrom(lines: seq<string>, c: Converter) {
    && (forall k :: 0 <= k < |c.accumulatedText| ==> c.accumulatedText[k] in lines && IsTextLine(c.accumulatedText[k]))
    && (c.previousLine.Some? ==> c.previousLine.value in lines)
    && (forall k :: 1 <= k < |c.outputLines| ==> IsBodyLine(lines, c.outputLines[k]))
    && (forall k :: 0 <= k < |c.screenshots| ==> TakenAtTimingLine(lines, c.screenshots[k]))
  }

  lemma StepDrawsFrom(lines: seq<string>, c: Converter, line: string)
    requires DrawnFrom(lines, c) && line in lines
    ensures StepLine(c, line).Ok? ==> DrawnFrom(lines, StepLine(c, line).value)
  {
    if HasArrow(line) && StepLine(c, line).Ok? {
      var d := StepLine(c, line).value;
      var previous := c.previousLine.value;
      var n := ParseInt(Strip(previous)).value;
      var kept := DropLast(c.accumulatedText);
      assert d.outputLines == c.outputLines + kept + ["* " + previous, ImageLink(n)];
      forall k | 1 <= k < |d.outputLines| ensures IsBodyLine(lines, d.outputLines[k]) {
        if k < |c.outputLines| {
          assert d.outputLines[k] == c.outputLines[k];
        } else if k < |c.outputLines| + |kept| {
          assert d.outputLines[k] == kept[k - |c.outputLines|] == c.accumulatedText[k - |c.outputLines|];
        } else if k == |c.outputLines| + |kept| {
          assert d.outputLines[k] == "* " + previous;
        } else {
          assert d.outputLines[k] == ImageLink(n);
        }
      }
      forall k | 0 <= k < |d.screenshots| ensures TakenAtTimingLine(lines, d.screenshots[k]) {
        if k < |c.screenshots| {
          assert d.screenshots[k] == c.screenshots[k];
        } else {
          assert d.screenshots[k].timestamp == Timestamp(line);
        }
      }
    } else if StepLine(c, line).Ok? {
      var d := StepLine(c, line).value;
      assert d.screenshots == c.screenshots && d.outputLines == c.outputLines;
      assert d.previousLine == Some(line);
    }
  }

  lemma {:induction false} RunDrawsFrom(lines: seq<string>, c: Converter, xs: seq<string>)
    requires DrawnFrom(lines, c)
    requires forall k :: 0 <= k < |xs| ==> xs[k] in lines
    ensures RunLines(c, xs).Ok? ==> DrawnFrom(lines, RunLines(c, xs).value)
    decreases |xs|
  {
    if xs != [] {
      RunDrawsFrom(lines, c, xs[..|xs| - 1]);
      if RunLines(c, xs[..|xs| - 1]).Ok? {
        StepDrawsFrom(lines, RunLines(c, xs[..|xs| - 1]).value, xs[|xs| - 1]);
      }
    }
  }

  /**
   * Every line of the outline after the title comes from the subtitle
   * lines after the first: subtitle text (never a blank line and never a
   * timing line), a heading `* ` + an input line, or a screenshot link; and
   * every screenshot is taken at the first twelve characters of a timing
   * line.
   */
  lemma OutlineDrawsFromInput(videoName: string, subtitleLines: seq<string>)
    ensures OrgOutline(videoName, subtitleLines).Ok? ==>
      var o := OrgOutline(videoName, subtitleLines).value;
      && (forall k :: 1 <= k < |o.outputLines| ==> IsBodyLine(Tail(subtitleLines), o.outputLines[k]))
      && (forall k :: 0 <= k < |o.screenshots| ==> TakenAtTimingLine(Tail(subtitleLines), o.screenshots[k]))
  {
    var rest := Tail(subtitleLines);
    RunDrawsFrom(rest, Begin(videoName), rest);
  }

  /** The non-blank lines of a list, in order. */
  function NonBlank(lines: seq<string>): seq<string>
    decreases |lines|
  {
    if lines == [] then []
    else if Strip(lines[|lines| - 1]) != [] then NonBlank(lines[..|lines| - 1]) + [lines[|lines| - 1]]
    else NonBlank(lines[..|lines| - 1])
  }

  /**
   * Lines without a timing line add their non-blank lines to the
   * accumulated text and nothing to the output or the screenshots.
   */
  lemma {:induction false} TextRun(c: Converter, lines: seq<string>)
    requires forall k :: 0 <= k < |lines| ==> !HasArrow(lines[k])
    ensures RunLines(c, lines).Ok?
    ensures RunLines(c, lines).value.outputLines == c.outputLines
    ensures RunLines(c, lines).value.screenshots == c.screenshots
    ensures RunLines(c, lines).value.accumulatedText == c.accumulatedText + NonBlank(lines)
    ensures RunLines(c, lines).value.previousLine == if lines == [] then c.previousLine else Some(lines[|lines| - 1])
    decreases |lines|
  {
    if lines != [] {
      TextRun(c, lines[..|lines| - 1]);
    }
  }

  /**
   * Text after the last timing line is never written out: the loop only
   * writes accumulated text when the next timing line arrives.
   */
  lemma TrailingTextDropped(videoName: string, lines: seq<string>, trailing: seq<string>)
    requires lines != []
    requires forall k :: 0 <= k < |trailing| ==> !HasArrow(trailing[k])
    ensures OrgOutline(videoName, lines + trailing) == OrgOutline(videoName, lines)
  {
    assert Tail(lines + trailing) == Tail(lines) + trailing;
    RunAppend(Begin(videoName), Tail(lines), trailing);
    if RunLines(Begin(videoName), Tail(lines)).Ok? {
      TextRun(RunLines(Begin(videoName), Tail(lines)).value, trailing);
    }
  }

  /** A cue of a WebVTT file: its number, its timing line and its text lines. */
  datatype Cue = Cue(number: nat, timing: string, text: seq<string>)

  predicate WellFormedCue(q: Cue) {
    HasArrow(q.timing) && forall k :: 0 <= k < |q.text| ==> IsTextLine(q.text[k])
  }

  /** The line holding a cue number, as `readlines` returns it. */
  function NumberLine(n: nat): string {
    NatToString(n) + "\n"
  }

  /** A cue as lines: number, timing, text, and the blank line that ends it. */
  function CueLines(q: Cue): seq<string> {
    [NumberLine(q.number), q.timing] + q.text + ["\n"]
  }

  function CuesLines(qs: seq<Cue>): seq<string> {
    if qs == [] then [] else CueLines(qs[0]) + CuesLines(qs[1..])
  }

  /** A subtitle file: the format line, a blank line, then the cues. */
  function VttLines(header: string, qs: seq<Cue>): seq<string> {
    [header, "\n"] + CuesLines(qs)
  }

  /**
   * The chapters the outline gets for a list of cues: each cue's chapter is
   * the text of the cue before it, then its heading and its screenshot.
   */
  function Chapters(previousText: seq<string>, qs: seq<Cue>): seq<string>
    decreases |qs|
  {
    if qs == [] then []
    else previousText + ["* " + NumberLine(qs[0].number), ImageLink(qs[0].number)] + Chapters(qs[0].text, qs[1..])
  }

  /** One screenshot per cue, taken at the start of its timing line and named by its number. */
  function Shots(qs: seq<Cue>): seq<Screenshot> {
    if qs == [] then [] else [Screenshot(Timestamp(qs[0].timing), ImageName(qs[0].number))] + Shots(qs[1..])
  }

  /** The text of the last cue, which the loop is left holding. */
  function LastText(previousText: seq<string>, qs: seq<Cue>): seq<string>
    decreases |qs|
  {
    if qs == [] then previousText else LastText(qs[0].text, qs[1..])
  }

  /** A cue number line is a text line whose stripped form reads back as the number. */
  lemma NumberLineFacts(n: nat)
    ensures !HasArrow(NumberLine(n))
    ensures Strip(NumberLine(n)) == NatToString(n)
    ensures ParseInt(Strip(NumberLine(n))) == Some(n)
  {
    var d := NatToString(n);
    var s := NumberLine(n);
    assert forall k :: 0 <= k < |s| ==> s[k] != '-' by {
      forall k | 0 <= k < |s| ensures s[k] != '-' {
        if k < |d| {
          assert s[k] == d[k];
        }
      }
    }
    assert StripLeading(s) == s;
    assert s[..|s| - 1] == d;
    assert StripTrailing(s) == StripTrailing(d) == d;
    ParseIntToString(n);
  }

  lemma SingleLine(c: Converter, line: string)
    ensures RunLines(c, [line]) == StepLine(c, line)
  {
    assert [line][..0] == [];
  }

  /**
   * One cue, after a blank line: the number line joins the accumulated
   * text, the timing line writes the text before it as the previous
   * chapter's text and starts a chapter, and the cue's own text is left
   * accumulated.
   */
  lemma OneCue(c: Converter, q: Cue)
    requires WellFormedCue(q) && c.previousLine == Some("\n")
    ensures RunLines(c, CueLines(q)) ==
      Ok(Converter(c.outputLines + c.accumulatedText + ["* " + NumberLine(q.number), ImageLink(q.number)],
                   q.text, Some("\n"),
                   c.screenshots + [Screenshot(Timestamp(q.timing), ImageName(q.number))]))
  {
    var nl := NumberLine(q.number);
    var c1 := c.(accumulatedText := c.accumulatedText + [nl], previousLine := Some(nl));
    assert RunLines(c, [nl]) == Ok(c1) by {
      NumberLineFacts(q.number);
      SingleLine(c, nl);
    }
    var c2 := Converter(c.outputLines + c.accumulatedText + ["* " + nl, ImageLink(q.number)],
                        [], Some(q.timing), c.screenshots + [Screenshot(Timestamp(q.timing), ImageName(q.number))]);
    assert RunLines(c1, [q.timing]) == Ok(c2) by {
      NumberLineFacts(q.number);
      SingleLine(c1, q.timing);
      assert DropLast(c1.accumulatedText) == c.accumulatedText;
    }
    TextRun(c2, q.text);
    var c3 := RunLines(c2, q.text).value;
    assert c3 == Converter(c2.outputLines, q.text, c3.previousLine, c2.screenshots) by {
      NonBlankOfText(q.text);
      EmptyPlus(q.text);
    }
    var c4 := Converter(c2.outputLines, q.text, Some("\n"), c2.screenshots);
    assert RunLines(c3, ["\n"]) == Ok(c4) by {
      SingleLine(c3, "\n");
      assert Strip("\n") == [];
    }
    RunThen(c, [nl], [q.timing], c1, c2);
    RunThen(c, [nl] + [q.timing], q.text, c2, c3);
    RunThen(c, [nl] + [q.timing] + q.text, ["\n"], c3, c4);
    CueLinesSplit(nl, q.timing, q.text, "\n");
  }

  /** Two runs one after the other are the run over both lists. */
  lemma RunThen(c: Converter, xs: seq<string>, ys: seq<string>, d: Converter, e: Converter)
    requires RunLines(c, xs) == Ok(d) && RunLines(d, ys) == Ok(e)
    ensures RunLines(c, xs + ys) == Ok(e)
  {
    RunAppend(c, xs, ys);
  }

  lemma {:induction false} NonBlankOfText(lines: seq<string>)
    requires forall k :: 0 <= k < |lines| ==> IsTextLine(lines[k])
    ensures NonBlank(lines) == lines
    decreases |lines|
  {
    if lines != [] {
      NonBlankOfText(lines[..|lines| - 1]);
      SplitLast(lines);
    }
  }

  lemma {:induction false} CuesRun(c: Converter, qs: seq<Cue>)
    requires forall i :: 0 <= i < |qs| ==> WellFormedCue(qs[i])
    requires c.previousLine == Some("\n")
    ensures RunLines(c, CuesLines(qs)) ==
      Ok(Converter(c.outputLines + Chapters(c.accumulatedText, qs), LastText(c.accumulatedText, qs),
                   Some("\n"), c.screenshots + Shots(qs)))
    decreases |qs|
  {
    if qs == [] {
      assert c.outputLines + [] == c.outputLines && c.screenshots + [] == c.screenshots;
    } else {
      var q := qs[0];
      OneCue(c, q);
      RunAppend(c, CueLines(q), CuesLines(qs[1..]));
      var d := RunLines(c, CueLines(q)).value;
      CuesRun(d, qs[1..]);
      RegroupFour(c.outputLines, c.accumulatedText, ["* " + NumberLine(q.number), ImageLink(q.number)],
              Chapters(q.text, qs[1..]));
      Regroup3(c.screenshots, [Screenshot(Timestamp(q.timing), ImageName(q.number))], Shots(qs[1..]));
    }
  }

  /**
   * A well-formed subtitle file converts without error into the title
   * followed by one chapter per cue: the heading `* ` + the cue's number
   * line and the link to its screenshot, preceded by the text of the cue
   * before it.  The last cue's text is never written.  There is one
   * screenshot per cue, at the first twelve characters of its timing line,
   * named after its number.
   */
  lemma VttToOutline(videoName: string, header: string, qs: seq<Cue>)
    requires forall i :: 0 <= i < |qs| ==> WellFormedCue(qs[i])
    ensures OrgOutline(videoName, VttLines(header, qs)) ==
      Ok(Outline([TitleLine(videoName)] + Chapters([], qs), Shots(qs)))
  {
    var b := Begin(videoName);
    var c := b.(previousLine := Some("\n"));
    assert Tail(VttLines(header, qs)) == ["\n"] + CuesLines(qs) by {
      DropFirst(header, "\n", CuesLines(qs));
    }
    assert RunLines(b, ["\n"]) == Ok(c) by {
      SingleLine(b, "\n");
      assert Strip("\n") == [];
    }
    assert RunLines(b, ["\n"] + CuesLines(qs)) == RunLines(c, CuesLines(qs)) by {
      RunAppend(b, ["\n"], CuesLines(qs));
    }
    CuesRun(c, qs);
    EmptyPlus(Shots(qs));
  }
}
