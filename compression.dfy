/** The pure half of utils/compression.py: the five transcoding presets, the ffmpeg
    argument list a preset produces, and the three readers of ffmpeg's text output (the
    `Duration:` banner, the `Stream #a:b(lang): Subtitle: codec` lines, and the
    `out_time_ms=` lines of `-progress pipe:1`). */
module Compression {
  import opened Wrappers
  import opened Text
  import opened CatalogModel

  // ---- Presets ------------------------------------------------------------------------

  datatype Preset = Preset(
    name: string, description: string, codec: string, crf: Option<int>,
    audioCodec: string, audioBitrate: string, extraArgs: seq<string>)

  /** `PRESETS.get(key)`. */
  function PresetFor(key: string): Option<Preset> {
    if key == "lossless" then
      Some(Preset("Lossless", "Zero quality loss, re-encodes for optimal container (largest files)",
                  "libx264", Some(0), "flac", "", ["-preset", "medium"]))
    else if key == "high" then
      Some(Preset("High Quality", "Visually identical to original, ~40-50% smaller",
                  "libx264", Some(18), "aac", "192k", ["-preset", "slow"]))
    else if key == "balanced" then
      Some(Preset("Balanced", "Great quality, ~60-70% smaller",
                  "libx264", Some(23), "aac", "128k", ["-preset", "medium"]))
    else if key == "space_saver" then
      Some(Preset("Space Saver", "Good quality, ~75-85% smaller",
                  "libx264", Some(28), "aac", "96k", ["-preset", "fast"]))
    else if key == "copy" then
      Some(Preset("No Compression", "Copy file as-is (fastest, no quality change)",
                  "copy", None, "copy", "", []))
    else None
  }

  /** `PRESET_ORDER`: the order the presets are offered in. */
  const PresetOrder: seq<string> := ["copy", "lossless", "high", "balanced", "space_saver"]

  /** The offered order lists every preset exactly once and nothing else, and only the
      `copy` preset uses the `copy` video codec (the file-copy path). */
  lemma PresetOrderIsComplete(key: string)
    ensures PresetFor(key).Some? <==> key in PresetOrder
    ensures forall i, j :: 0 <= i < j < |PresetOrder| ==> PresetOrder[i] != PresetOrder[j]
    ensures PresetFor(key).Some? && PresetFor(key).value.codec == "copy" <==> key == "copy"
  {
    PresetKeys(key);
    PresetOrderDistinct();
  }

  lemma PresetKeys(key: string)
    ensures PresetFor(key).Some? <==> key in PresetOrder
  {
  }

  lemma PresetOrderDistinct()
    ensures forall i, j :: 0 <= i < j < |PresetOrder| ==> PresetOrder[i] != PresetOrder[j]
  {
  }

  // ---- The ffmpeg command -------------------------------------------------------------

  function CrfArgs(crf: Option<int>): seq<string> {
    if crf.Some? then ["-crf", IntToString(crf.value)] else []
  }

  function BitrateArgs(bitrate: string): seq<string> {
    if bitrate != "" then ["-b:a", bitrate] else []
  }

  /** The arguments after the preset's extra arguments. */
  function AudioAndOutputArgs(p: Preset, output: string): seq<string> {
    ["-c:a", p.audioCodec] + BitrateArgs(p.audioBitrate)
    + ["-c:s", "copy", "-progress", "pipe:1", "-nostats", output]
  }

  /** The argument list `_run_compression` passes to `Popen`. */
  function BuildCommand(ffmpeg: string, input: string, p: Preset, output: string): (cmd: seq<string>)
    ensures |cmd| == 14 + |CrfArgs(p.crf)| + |p.extraArgs| + |BitrateArgs(p.audioBitrate)|
    ensures cmd[0] == ffmpeg && cmd[|cmd| - 1] == output
  {
    [ffmpeg, "-i", input, "-y", "-c:v", p.codec] + CrfArgs(p.crf) + p.extraArgs
    + AudioAndOutputArgs(p, output)
  }

  /** The option names the command uses. */
  const OptionNames: seq<string> := ["-i", "-y", "-c:v", "-crf", "-c:a", "-b:a", "-c:s", "-progress", "-nostats"]

  /** How ffmpeg reads the value of an option: the word after the first occurrence of its
      name. */
  function OptionValue(cmd: seq<string>, flag: string): Option<string> {
    if |cmd| < 2 then None
    else if cmd[0] == flag then Some(cmd[1])
    else OptionValue(cmd[1..], flag)
  }

  lemma {:induction false} OptionValueSkips(a: seq<string>, b: seq<string>, flag: string)
    requires flag !in a
    ensures OptionValue(a + b, flag) == OptionValue(b, flag)
  {
    if a != [] {
      assert a[0] in a;
      assert forall w :: w in a[1..] ==> w in a;
      assert (a + b)[1..] == a[1..] + b;
      OptionValueSkips(a[1..], b, flag);
    } else {
      assert a + b == b;
    }
  }

  /** An option whose name does not occur earlier reads the word after it. */
  lemma OptionValueFound(a: seq<string>, flag: string, v: string, c: seq<string>)
    requires flag !in a
    ensures OptionValue(a + ([flag, v] + c), flag) == Some(v)
  {
    OptionValueSkips(a, [flag, v] + c, flag);
  }

  lemma OptionValueAbsent(cmd: seq<string>, flag: string)
    requires flag !in cmd
    ensures OptionValue(cmd, flag) == None
  {
    OptionValueSkips(cmd, [], flag);
    assert cmd + [] == cmd;
  }

  /** `str(n)` is never one of the option names. */
  lemma IntToStringIsNoOption(n: int)
    ensures IntToString(n) !in OptionNames
  {
    var r := IntToString(n);
    if n < 0 {
      assert r[1] == NatToString(-n)[0];
      assert IsDigit(r[1]);
    } else {
      assert IsDigit(r[0]);
    }
  }

  /** The paths and preset words are not option names themselves. */
  predicate PlainWords(ffmpeg: string, input: string, p: Preset, output: string) {
    && ffmpeg !in OptionNames && input !in OptionNames && output !in OptionNames
    && p.codec !in OptionNames && p.audioCodec !in OptionNames && p.audioBitrate !in OptionNames
    && forall w :: w in p.extraArgs ==> w !in OptionNames
  }

  /** The command reads back the input path. */
  lemma CommandInput(ffmpeg: string, input: string, p: Preset, output: string)
    requires PlainWords(ffmpeg, input, p, output)
    ensures OptionValue(BuildCommand(ffmpeg, input, p, output), "-i") == Some(input)
  {
    var cmd := BuildCommand(ffmpeg, input, p, output);
    assert cmd == [ffmpeg] + (["-i", input] + cmd[3..]);
    OptionValueFound([ffmpeg], "-i", input, cmd[3..]);
  }

  /** The command reads back the preset's video codec. */
  lemma CommandCodec(ffmpeg: string, input: string, p: Preset, output: string)
    requires PlainWords(ffmpeg, input, p, output)
    ensures OptionValue(BuildCommand(ffmpeg, input, p, output), "-c:v") == Some(p.codec)
  {
    var cmd := BuildCommand(ffmpeg, input, p, output);
    assert cmd == [ffmpeg, "-i", input, "-y"] + (["-c:v", p.codec] + cmd[6..]);
    OptionValueFound([ffmpeg, "-i", input, "-y"], "-c:v", p.codec, cmd[6..]);
  }

  /** The command carries `-crf` exactly when the preset has a CRF, with its decimal
      text. */
  lemma CommandCrf(ffmpeg: string, input: string, p: Preset, output: string)
    requires PlainWords(ffmpeg, input, p, output)
    ensures OptionValue(BuildCommand(ffmpeg, input, p, output), "-crf")
         == if p.crf.Some? then Some(IntToString(p.crf.value)) else None
  {
    var head := [ffmpeg, "-i", input, "-y", "-c:v", p.codec];
    var after := p.extraArgs + AudioAndOutputArgs(p, output);
    CommandAroundCrf(ffmpeg, input, p, output);
    if p.crf.Some? {
      OptionValueFound(head, "-crf", IntToString(p.crf.value), after);
    } else {
      CrfFlagAbsent(ffmpeg, input, p, output);
      OptionValueAbsent(head + after, "-crf");
    }
  }

  lemma CommandAroundCrf(ffmpeg: string, input: string, p: Preset, output: string)
    ensures BuildCommand(ffmpeg, input, p, output)
      == [ffmpeg, "-i", input, "-y", "-c:v", p.codec] + (CrfArgs(p.crf) + (p.extraArgs + AudioAndOutputArgs(p, output)))
  {
  }

  /** The preset's extra arguments come, unchanged and in order, right after the video
      codec and its CRF arguments and right before `-c:a`. */
  lemma CommandExtraArgs(ffmpeg: string, input: string, p: Preset, output: string)
    ensures var cmd := BuildCommand(ffmpeg, input, p, output);
      var k := 6 + |CrfArgs(p.crf)|;
      && cmd[4..6] == ["-c:v", p.codec]
      && cmd[6..k] == CrfArgs(p.crf)
      && cmd[k..k + |p.extraArgs|] == p.extraArgs
      && cmd[k + |p.extraArgs|] == "-c:a"
  {
    var head := [ffmpeg, "-i", input, "-y", "-c:v", p.codec];
    var tail := AudioAndOutputArgs(p, output);
    CommandAroundCrf(ffmpeg, input, p, output);
    PiecesOfConcat(head, CrfArgs(p.crf), p.extraArgs, tail);
    assert head[4..6] == ["-c:v", p.codec];
  }

  /** Where each of four joined pieces sits in the whole. */
  lemma PiecesOfConcat<T>(h: seq<T>, c: seq<T>, e: seq<T>, t: seq<T>)
    requires t != []
    ensures var s := h + (c + (e + t));
      && s[..|h|] == h
      && s[|h|..|h| + |c|] == c
      && s[|h| + |c|..|h| + |c| + |e|] == e
      && s[|h| + |c| + |e|] == t[0]
  {
    var s := h + (c + (e + t));
    assert s[|h|..] == c + (e + t);
    assert s[|h| + |c|..] == e + t;
  }

  /** Without a CRF the command holds no `-crf` anywhere. */
  lemma CrfFlagAbsent(ffmpeg: string, input: string, p: Preset, output: string)
    requires PlainWords(ffmpeg, input, p, output) && p.crf.None?
    ensures var head := [ffmpeg, "-i", input, "-y", "-c:v", p.codec];
      var after := p.extraArgs + AudioAndOutputArgs(p, output);
      head + (CrfArgs(p.crf) + after) == head + after && "-crf" !in head + after
  {
    var head := [ffmpeg, "-i", input, "-y", "-c:v", p.codec];
    var after := p.extraArgs + AudioAndOutputArgs(p, output);
    assert CrfArgs(p.crf) + after == after;
    assert "-crf" in OptionNames;
  }

  /** The command reads back the audio codec and the bitrate when the preset has one. */
  lemma CommandAudio(ffmpeg: string, input: string, p: Preset, output: string)
    requires PlainWords(ffmpeg, input, p, output)
    ensures OptionValue(BuildCommand(ffmpeg, input, p, output), "-c:a") == Some(p.audioCodec)
    ensures OptionValue(BuildCommand(ffmpeg, input, p, output), "-b:a")
         == if p.audioBitrate != "" then Some(p.audioBitrate) else None
  {
    if p.crf.Some? {
      IntToStringIsNoOption(p.crf.value);
    }
    var front := [ffmpeg, "-i", input, "-y", "-c:v", p.codec] + CrfArgs(p.crf) + p.extraArgs;
    var audio := ["-c:a", p.audioCodec];
    var bitrate := BitrateArgs(p.audioBitrate);
    var tail := ["-c:s", "copy", "-progress", "pipe:1", "-nostats", output];
    ConcatAssoc(audio, bitrate, tail);
    OptionValueFound(front, "-c:a", p.audioCodec, bitrate + tail);
    ConcatAssoc(front, audio, bitrate + tail);
    OptionValueSkips(front + audio, bitrate + tail, "-b:a");
    if p.audioBitrate == "" {
      assert bitrate + tail == tail;
      OptionValueAbsent(tail, "-b:a");
    }
  }

  /** The command copies subtitle streams and writes progress to its standard output. */
  lemma CommandSubtitlesAndProgress(ffmpeg: string, input: string, p: Preset, output: string)
    requires PlainWords(ffmpeg, input, p, output)
    ensures OptionValue(BuildCommand(ffmpeg, input, p, output), "-c:s") == Some("copy")
    ensures OptionValue(BuildCommand(ffmpeg, input, p, output), "-progress") == Some("pipe:1")
  {
    if p.crf.Some? {
      IntToStringIsNoOption(p.crf.value);
    }
    var front := [ffmpeg, "-i", input, "-y", "-c:v", p.codec] + CrfArgs(p.crf) + p.extraArgs;
    var audio := ["-c:a", p.audioCodec] + BitrateArgs(p.audioBitrate);
    var tail := ["-c:s", "copy", "-progress", "pipe:1", "-nostats", output];
    ConcatAssoc(front, audio, tail);
    OptionValueSkips(front + audio, tail, "-c:s");
    OptionValueSkips(front + audio, tail, "-progress");
    assert tail == ["-c:s", "copy"] + tail[2..];
    OptionValueFound(["-c:s", "copy"], "-progress", "pipe:1", tail[4..]);
    assert tail[2..] == ["-progress", "pipe:1"] + tail[4..];
  }

  // ---- Scanning helpers ---------------------------------------------------------------

  /** `\d+` followed by the character `sep`: the value and the text after `sep`. */
  function DigitsThen(s: string, sep: char): (r: Option<(nat, string)>)
    ensures r.Some? ==> |r.value.1| < |s|
  {
    match Digits(s)
    case None => None
    case Some((v, t)) => if t != [] && t[0] == sep then Some((v, t[1..])) else None
  }

  lemma DigitsThenOf(d: string, sep: char, rest: string)
    requires |d| >= 1 && AllDigits(d) && !IsDigit(sep)
    ensures DigitsThen(d + ([sep] + rest), sep) == Some((DigitsValue(d), rest))
  {
    DigitsOf(d, [sep] + rest);
    assert ([sep] + rest)[1..] == rest;
  }

  function Pow10(n: nat): (r: nat)
    ensures r >= 1
  {
    if n == 0 then 1 else 10 * Pow10(n - 1)
  }

  // ---- Duration: H:M:S ----------------------------------------------------------------

  const DurationTag: string := "Duration:"

  /** The three groups of the banner: hours, minutes, and seconds as whole seconds plus
      `fraction` over `10^places`. */
  datatype Clock = Clock(hours: nat, minutes: nat, seconds: nat, fraction: nat, places: nat)

  /** `h * 3600 + m * 60 + float(s)`. */
  function ClockSeconds(c: Clock): real {
    (c.hours * 3600 + c.minutes * 60 + c.seconds) as real + (c.fraction as real) / (Pow10(c.places) as real)
  }

  /** `(\d+\.?\d*)`: whole seconds and, after a point, the fraction digits' value and
      count. */
  function Seconds(s: string): Option<(nat, nat, nat)> {
    match Digits(s)
    case None => None
    case Some((whole, t)) =>
      if t != [] && t[0] == '.' then
        var f := t[1..][..Run(t[1..], IsDigit)];
        Some((whole, DigitsValue(f), |f|))
      else Some((whole, 0, 0))
  }

  lemma SecondsOf(sd: string, fd: string, rest: string)
    requires |sd| >= 1 && AllDigits(sd) && AllDigits(fd)
    requires rest == [] || !IsDigit(rest[0])
    ensures Seconds(sd + ("." + (fd + rest))) == Some((DigitsValue(sd), DigitsValue(fd), |fd|))
  {
    DigitsOf(sd, "." + (fd + rest));
    var t := "." + (fd + rest);
    assert t[1..] == fd + rest;
    RunOfPrefix(fd, rest, IsDigit);
    assert (fd + rest)[..|fd|] == fd;
  }

  /** `Duration:\s*(\d+):(\d+):(\d+\.?\d*)` matched at the start of `s`. */
  function MatchDuration(s: string): Option<Clock> {
    if !StartsWith(s, DurationTag) then None
    else
      var t := s[9..];
      MatchClock(t[Run(t, IsSpace)..])
  }

  /** `(\d+):(\d+):(\d+\.?\d*)` at the start of `s`. */
  function MatchClock(s: string): Option<Clock> {
    match DigitsThen(s, ':')
    case None => None
    case Some((h, u)) =>
      match DigitsThen(u, ':')
      case None => None
      case Some((m, v)) =>
        match Seconds(v)
        case None => None
        case Some((sec, f, n)) => Some(Clock(h, m, sec, f, n))
  }

  /** The clock as ffmpeg prints it, `HH:MM:SS.ff`, with the digit groups given as text,
      followed by the rest of the output. */
  function ClockText(hd: string, md: string, sd: string, fd: string, rest: string): string {
    hd + (":" + (md + (":" + (sd + ("." + (fd + rest))))))
  }

  /** The clock the printed digit groups denote. */
  function ClockOfDigits(hd: string, md: string, sd: string, fd: string): Clock
    requires AllDigits(hd) && AllDigits(md) && AllDigits(sd) && AllDigits(fd)
  {
    Clock(DigitsValue(hd), DigitsValue(md), DigitsValue(sd), DigitsValue(fd), |fd|)
  }

  lemma ClockRoundTrip(hd: string, md: string, sd: string, fd: string, rest: string)
    requires |hd| >= 1 && |md| >= 1 && |sd| >= 1
    requires AllDigits(hd) && AllDigits(md) && AllDigits(sd) && AllDigits(fd)
    requires rest == [] || !IsDigit(rest[0])
    ensures MatchClock(ClockText(hd, md, sd, fd, rest)) == Some(ClockOfDigits(hd, md, sd, fd))
  {
    var v := sd + ("." + (fd + rest));
    var u := md + (":" + v);
    DigitsThenOf(hd, ':', u);
    DigitsThenOf(md, ':', v);
    SecondsOf(sd, fd, rest);
  }

  /** `re.search`: the match at the leftmost position where the pattern matches. */
  function FindDuration(text: string): Option<Clock> {
    if text == [] then None
    else if MatchDuration(text).Some? then MatchDuration(text)
    else FindDuration(text[1..])
  }

  /** `get_video_duration` on ffmpeg's banner text, without the process call. */
  function VideoDuration(stderr: string): Option<real> {
    match FindDuration(stderr)
    case None => None
    case Some(c) => Some(ClockSeconds(c))
  }

  /** A duration is only found where the text holds `Duration:`. */
  lemma {:induction false} FoundDurationHasTag(text: string)
    requires FindDuration(text).Some?
    ensures exists i :: OccursAt(text, DurationTag, i)
  {
    if MatchDuration(text).Some? {
      assert text[0..9] == text[..9];
      assert OccursAt(text, DurationTag, 0);
    } else {
      FoundDurationHasTag(text[1..]);
      var i :| OccursAt(text[1..], DurationTag, i);
      assert text[1..][i..i + 9] == text[i + 1..i + 1 + 9];
      assert OccursAt(text, DurationTag, i + 1);
    }
  }

  /** The banner as ffmpeg prints it, `Duration: HH:MM:SS.ff`, followed by the rest of
      the output. */
  function DurationText(hd: string, md: string, sd: string, fd: string, rest: string): string {
    DurationTag + (" " + ClockText(hd, md, sd, fd, rest))
  }

  /** Reading a printed banner back gives the clock of its digit groups, when no place
      in the text before it already reads as a complete `Duration:` banner and no digit
      follows it. */
  lemma DurationRoundTrip(pre: string, hd: string, md: string, sd: string, fd: string, rest: string)
    requires forall i :: 0 <= i < |pre| ==> MatchDuration((pre + DurationText(hd, md, sd, fd, rest))[i..]).None?
    requires |hd| >= 1 && |md| >= 1 && |sd| >= 1
    requires AllDigits(hd) && AllDigits(md) && AllDigits(sd) && AllDigits(fd)
    requires rest == [] || !IsDigit(rest[0])
    ensures FindDuration(pre + DurationText(hd, md, sd, fd, rest)) == Some(ClockOfDigits(hd, md, sd, fd))
    ensures VideoDuration(pre + DurationText(hd, md, sd, fd, rest)) == Some(ClockSeconds(ClockOfDigits(hd, md, sd, fd)))
  {
    SkipToBanner(pre, DurationText(hd, md, sd, fd, rest));
    BannerMatches(hd, md, sd, fd, rest);
  }

  /** The scan passes over a prefix none of whose places reads as a banner. */
  lemma {:induction false} SkipToBanner(pre: string, b: string)
    requires forall i :: 0 <= i < |pre| ==> MatchDuration((pre + b)[i..]).None?
    requires |b| > 0
    ensures FindDuration(pre + b) == FindDuration(b)
  {
    if pre != [] {
      assert (pre + b)[0..] == pre + b;
      assert (pre + b)[1..] == pre[1..] + b;
      forall i | 0 <= i < |pre[1..]|
        ensures MatchDuration((pre[1..] + b)[i..]).None?
      {
        assert (pre[1..] + b)[i..] == (pre + b)[i + 1..];
      }
      SkipToBanner(pre[1..], b);
    } else {
      assert pre + b == b;
    }
  }

  lemma BannerMatches(hd: string, md: string, sd: string, fd: string, rest: string)
    requires |hd| >= 1 && |md| >= 1 && |sd| >= 1
    requires AllDigits(hd) && AllDigits(md) && AllDigits(sd) && AllDigits(fd)
    requires rest == [] || !IsDigit(rest[0])
    ensures MatchDuration(DurationText(hd, md, sd, fd, rest)) == Some(ClockOfDigits(hd, md, sd, fd))
  {
    var w := ClockText(hd, md, sd, fd, rest);
    var s := DurationText(hd, md, sd, fd, rest);
    assert s[..9] == DurationTag;
    var t := s[9..];
    assert t == " " + w;
    RunOfPrefix(" ", w, IsSpace);
    assert t[1..] == w;
    ClockRoundTrip(hd, md, sd, fd, rest);
  }

  // ---- Subtitle streams ---------------------------------------------------------------

  /** One match of `Stream #\d+:(\d+)(?:\((\w+)\))?: Subtitle: (\w+)`: the stream index,
      the language if given, the codec, and the text after the match. */
  datatype StreamMatch = StreamMatch(track: nat, lang: Option<string>, codec: string, rest: string)

  const StreamTag: string := "Stream #"
  const SubtitleTag: string := ": Subtitle: "

  /** `\w+` at the start of `s`: the word and the text after it. */
  function Word(s: string): (r: Option<(string, string)>)
    ensures r.Some? ==> |r.value.1| < |s|
  {
    var n := Run(s, IsWordChar);
    if n == 0 then None else Some((s[..n], s[n..]))
  }

  predicate IsWord(w: string) {
    |w| >= 1 && forall i :: 0 <= i < |w| ==> IsWordChar(w[i])
  }

  lemma WordOf(w: string, rest: string)
    requires IsWord(w)
    requires rest == [] || !IsWordChar(rest[0])
    ensures Word(w + rest) == Some((w, rest))
  {
    RunOfPrefix(w, rest, IsWordChar);
    assert (w + rest)[..|w|] == w;
    assert (w + rest)[|w|..] == rest;
  }

  /** `(?:\((\w+)\))?: Subtitle: ` at the start of `s`: the language if the group is
      taken, and the text after the tag. The group is taken only when it is followed by
      the tag; otherwise the tag must come first. */
  function LangThenTag(s: string): (r: Option<(Option<string>, string)>)
    ensures r.Some? ==> |r.value.1| < |s|
  {
    var grouped :=
      if s != [] && s[0] == '(' then
        match Word(s[1..])
        case Some((lang, t)) =>
          if t != [] && t[0] == ')' && StartsWith(t[1..], SubtitleTag) then Some((Some(lang), t[1..][12..]))
          else None
        case None => None
      else None;
    if grouped.Some? then grouped
    else if StartsWith(s, SubtitleTag) then Some((None, s[12..]))
    else None
  }

  /** The optional `(lang)` group as ffmpeg prints it. */
  function LangGroup(lang: Option<string>): string {
    if lang.Some? then "(" + (lang.value + ")") else ""
  }

  lemma LangThenTagOf(lang: Option<string>, rest: string)
    requires lang.Some? ==> IsWord(lang.value)
    ensures LangThenTag(LangGroup(lang) + (SubtitleTag + rest)) == Some((lang, rest))
  {
    var x := SubtitleTag + rest;
    assert x[..12] == SubtitleTag && x[12..] == rest;
    assert StartsWith(x, SubtitleTag);
    if lang.Some? {
      var l := lang.value;
      ConcatAssoc("(", l + ")", x);
      ConcatAssoc(l, ")", x);
      var s := LangGroup(lang) + x;
      assert s == "(" + (l + (")" + x));
      assert s[1..] == l + (")" + x);
      WordOf(l, ")" + x);
      assert (")" + x)[1..] == x;
    } else {
      assert LangGroup(lang) + x == x;
      assert x[0] == ':';
    }
  }

  /** The pattern matched at the start of `s`. */
  function MatchSubtitleStream(s: string): (r: Option<StreamMatch>)
    ensures r.Some? ==> |r.value.rest| < |s|
  {
    if !StartsWith(s, StreamTag) then None
    else
      match DigitsThen(s[8..], ':')
      case None => None
      case Some((_, t)) =>
        match Digits(t)
        case None => None
        case Some((track, u)) =>
          match LangThenTag(u)
          case None => None
          case Some((lang, v)) =>
            match Word(v)
            case None => None
            case Some((codec, rest)) => Some(StreamMatch(track, lang, codec, rest))
  }

  /** The dictionary `get_embedded_subtitles` builds for one match: an embedded track
      with an empty path, labelled `LANG (codec)`. */
  function EmbeddedEntry(m: StreamMatch): (e: SubtitleEntry)
    ensures e.subPath == Some("") && e.isEmbedded == Some(true) && e.trackIndex == Some(m.track as int)
    ensures e.caption.Some? && |e.caption.value| >= |m.codec| + 3
    ensures e.caption.value[|e.caption.value| - 1] == ')'
  {
    SubtitleEntry(Some(""), Some(Upper(m.lang.GetOr("Unknown")) + " (" + m.codec + ")"), Some(true), Some(m.track as int))
  }

  /** `pattern.finditer(text)`: non-overlapping matches, left to right, each search
      resuming where the previous match ended. */
  function SubtitleStreams(text: string): seq<SubtitleEntry> {
    if text == [] then []
    else
      match MatchSubtitleStream(text)
      case Some(m) => [EmbeddedEntry(m)] + SubtitleStreams(m.rest)
      case None => SubtitleStreams(text[1..])
  }

  /** `get_embedded_subtitles` on ffmpeg's banner text, without the process call. */
  function EmbeddedSubtitles(stderr: string): seq<SubtitleEntry> {
    SubtitleStreams(stderr)
  }

  /** An embedded track with an empty path, a non-negative index and a label of the
      form `LANG (codec)`. */
  predicate EmbeddedShaped(e: SubtitleEntry) {
    && e.subPath == Some("") && e.isEmbedded == Some(true)
    && e.trackIndex.Some? && e.trackIndex.value >= 0
    && e.caption.Some? && |e.caption.value| >= 4 && e.caption.value[|e.caption.value| - 1] == ')'
  }

  /** Every entry found is an embedded track with an empty path, a non-negative index
      and a label of the form `LANG (codec)`. */
  lemma {:induction false} EmbeddedEntriesShape(text: string)
    ensures forall e :: e in SubtitleStreams(text) ==> EmbeddedShaped(e)
  {
    if text != [] {
      match MatchSubtitleStream(text)
      case Some(m) =>
        EmbeddedEntriesShape(m.rest);
        assert EmbeddedShaped(EmbeddedEntry(m));
      case None =>
        EmbeddedEntriesShape(text[1..]);
    }
  }

  /** A subtitle stream line as ffmpeg prints it, followed by the rest of the output. */
  function StreamText(a: nat, b: nat, lang: Option<string>, codec: string, rest: string): string {
    StreamTag + (NatToString(a) + (":" + (NatToString(b) + (LangGroup(lang) + (SubtitleTag + (codec + rest))))))
  }

  /** One printed stream line, followed by text that does not continue its codec word,
      is read back as one entry with that line's index, language and codec, and the
      search goes on in the text after it. */
  lemma StreamLineRoundTrip(a: nat, b: nat, lang: Option<string>, codec: string, rest: string)
    requires lang.Some? ==> IsWord(lang.value)
    requires IsWord(codec)
    requires rest == [] || !IsWordChar(rest[0])
    ensures EmbeddedSubtitles(StreamText(a, b, lang, codec, rest))
         == [EmbeddedEntry(StreamMatch(b, lang, codec, rest))] + EmbeddedSubtitles(rest)
  {
    StreamLineMatches(a, b, lang, codec, rest);
  }

  lemma StreamLineMatches(a: nat, b: nat, lang: Option<string>, codec: string, rest: string)
    requires lang.Some? ==> IsWord(lang.value)
    requires IsWord(codec)
    requires rest == [] || !IsWordChar(rest[0])
    ensures MatchSubtitleStream(StreamText(a, b, lang, codec, rest)) == Some(StreamMatch(b, lang, codec, rest))
  {
    var ad := NatToString(a);
    var bd := NatToString(b);
    var v := codec + rest;
    var u := LangGroup(lang) + (SubtitleTag + v);
    var t := bd + u;
    var s := StreamText(a, b, lang, codec, rest);
    assert s[..8] == StreamTag;
    assert s[8..] == ad + (":" + t);
    DigitsThenOf(ad, ':', t);
    assert DigitsThen(s[8..], ':') == Some((DigitsValue(ad), t));
    NatToStringRoundTrip(b);
    assert u[0] == '(' || u[0] == ':';
    DigitsOf(bd, u);
    assert Digits(t) == Some((b, u));
    LangThenTagOf(lang, v);
    assert LangThenTag(u) == Some((lang, v));
    WordOf(codec, rest);
    assert Word(v) == Some((codec, rest));
  }

  // ---- Progress lines -----------------------------------------------------------------

  const ProgressKey: string := "out_time_ms="

  /** The text up to the first `c` (all of it when there is none). */
  function UpTo(s: string, c: char): (r: string)
    ensures |r| <= |s| && r == s[..|r|]
    ensures c !in r
  {
    if s == [] || s[0] == c then [] else [s[0]] + UpTo(s[1..], c)
  }

  lemma {:induction false} UpToWhole(s: string, c: char)
    requires c !in s
    ensures UpTo(s, c) == s
  {
    if s != [] {
      assert s[0] in s;
      assert forall x :: x in s[1..] ==> x in s;
      UpToWhole(s[1..], c);
    }
  }

  function MinReal(a: real, b: real): real {
    if a <= b then a else b
  }

  /** `min((time_us / 1_000_000 / duration) * 100, 99.9)`. */
  function Percent(timeUs: int, duration: real): real
    requires duration > 0.0
  {
    MinReal((timeUs as real / 1000000.0) / duration * 100.0, 99.9)
  }

  /** The progress one stdout line reports: only an `out_time_ms=` line whose value
      (`line.split("=")[1]`, stripped) parses as an integer, and only when the duration
      is known and positive. */
  function LineProgress(line: string, duration: Option<real>): Option<real> {
    if !StartsWith(line, ProgressKey) then None
    else
      match ParseInt(UpTo(line[12..], '='))
      case None => None
      case Some(timeUs) =>
        if duration.Some? && duration.value > 0.0 then Some(Percent(timeUs, duration.value)) else None
  }

  /** The percentage stays below the completion mark, is never negative for a
      non-negative time, grows with the time, and is exact until it reaches 99.9. */
  lemma PercentProperties(t1: int, t2: int, duration: real)
    requires duration > 0.0
    ensures Percent(t1, duration) <= 99.9
    ensures t1 >= 0 ==> Percent(t1, duration) >= 0.0
    ensures t1 <= t2 ==> Percent(t1, duration) <= Percent(t2, duration)
    ensures (t1 as real / 1000000.0) / duration * 100.0 <= 99.9 ==>
      Percent(t1, duration) == (t1 as real / 1000000.0) / duration * 100.0
  {
    var x1 := t1 as real / 1000000.0;
    var x2 := t2 as real / 1000000.0;
    if t1 <= t2 {
      assert x1 <= x2;
      assert x1 / duration <= x2 / duration;
    }
    if t1 >= 0 {
      assert x1 >= 0.0;
      assert x1 / duration >= 0.0;
    }
  }

  /** A line reports progress exactly when it is a progress line with an integer value
      and the duration is known and positive; what it reports is below 99.9. */
  lemma LineProgressSpec(line: string, duration: Option<real>)
    ensures LineProgress(line, duration).Some? <==>
      StartsWith(line, ProgressKey) && ParseInt(UpTo(line[12..], '=')).Some?
      && duration.Some? && duration.value > 0.0
    ensures LineProgress(line, duration).Some? ==> LineProgress(line, duration).value <= 99.9
  {
    if LineProgress(line, duration).Some? {
      PercentProperties(ParseInt(UpTo(line[12..], '=')).value, 0, duration.value);
    }
  }

  /** An `out_time_ms=` line printed from a time reads back as that time's percentage. */
  lemma ProgressLineRoundTrip(timeUs: int, duration: real)
    requires duration > 0.0
    ensures LineProgress(ProgressKey + IntToString(timeUs), Some(duration)) == Some(Percent(timeUs, duration))
  {
    var r := IntToString(timeUs);
    var printed := ProgressKey + r;
    assert printed[..12] == ProgressKey;
    assert printed[12..] == r;
    if timeUs < 0 {
      assert r == "-" + NatToString(-timeUs);
      assert forall i :: 1 <= i < |r| ==> IsDigit(r[i]);
    } else {
      assert AllDigits(r);
    }
    assert '=' !in r;
    UpToWhole(r, '=');
    IntToStringRoundTrip(timeUs);
  }
}
