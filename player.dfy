/** The playback page (ui/player_widget.py): the clock text under the seek bar and the
    `PlayerWidget` state its buttons, sliders and update timer change. The VLC player is
    not modelled: what it answers (`get_time`, `get_length`, whether the media has ended)
    comes in as parameters, and what is asked of it (`set_time`, `set_position`) and of
    the catalog (`update_playback_position`, `update_duration`) is logged in order. */
module Player {
  import opened Wrappers
  import opened Text
  import opened CatalogModel

  // ---- Clock text -----------------------------------------------------------------

  /** `int(seconds)` after negative input is clamped to 0. */
  function WholeSeconds(seconds: real): (r: nat)
    ensures seconds >= 0.0 ==> r as real <= seconds < r as real + 1.0
    ensures seconds < 0.0 ==> r == 0
  {
    if seconds < 0.0 then 0 else seconds.Floor
  }

  /** `format_time`: `h:mm:ss` from one hour on, `m:ss` below. */
  function FormatTime(seconds: real): string {
    var total := WholeSeconds(seconds);
    var h := total / 3600;
    var m := total % 3600 / 60;
    var s := total % 60;
    if h > 0 then NatToString(h) + ":" + Pad2(m) + ":" + Pad2(s)
    else NatToString(m) + ":" + Pad2(s)
  }

  /** `s.split(":")`. */
  function Fields(s: string): (r: seq<string>)
    ensures |r| >= 1
  {
    if s == [] then [[]]
    else if s[0] == ':' then [[]] + Fields(s[1..])
    else
      var rest := Fields(s[1..]);
      [[s[0]] + rest[0]] + rest[1..]
  }

  predicate DigitField(f: string) {
    f != [] && AllDigits(f)
  }

  /** How a clock reading is read back: two or three non-empty digit fields, taken as
      minutes and seconds or as hours, minutes and seconds; `None` for anything else. */
  function ClockValue(s: string): Option<nat> {
    var f := Fields(s);
    if |f| == 3 && DigitField(f[0]) && DigitField(f[1]) && DigitField(f[2]) then
      Some(DigitsValue(f[0]) * 3600 + DigitsValue(f[1]) * 60 + DigitsValue(f[2]))
    else if |f| == 2 && DigitField(f[0]) && DigitField(f[1]) then
      Some(DigitsValue(f[0]) * 60 + DigitsValue(f[1]))
    else None
  }

  lemma {:induction false} FieldsPlain(a: string)
    requires AllDigits(a)
    ensures Fields(a) == [a]
  {
    if a != [] {
      FieldsPlain(a[1..]);
      assert [a[0]] + a[1..] == a;
    }
  }

  lemma {:induction false} FieldsJoin(a: string, b: string)
    requires AllDigits(a)
    ensures Fields(a + ":" + b) == [a] + Fields(b)
  {
    if a == [] {
      assert a + ":" + b == [':'] + b;
      assert (a + ":" + b)[1..] == b;
    } else {
      assert (a + ":" + b)[1..] == a[1..] + ":" + b;
      FieldsJoin(a[1..], b);
      assert [a[0]] + a[1..] == a;
    }
  }

  lemma DigitPairValue(p: string)
    requires |p| == 2 && AllDigits(p)
    ensures DigitsValue(p) == DigitValue(p[0]) * 10 + DigitValue(p[1])
  {
    assert p[..1] == [p[0]] && p[..1][..0] == [];
    assert DigitsValue(p[..1]) == DigitValue(p[0]);
  }

  /** Two digits that read back as the number padded. */
  lemma Pad2RoundTrip(n: nat)
    requires n < 60
    ensures |Pad2(n)| == 2 && DigitField(Pad2(n)) && DigitsValue(Pad2(n)) == n
  {
    var p := Pad2(n);
    if n < 10 {
      assert p == ['0', DigitChar(n)];
      DigitPairValue(p);
    } else {
      assert NatToString(n / 10) == [DigitChar(n / 10)];
      assert p == [DigitChar(n / 10), DigitChar(n % 10)];
      DigitPairValue(p);
    }
  }

  lemma FieldsOfThree(a: string, b: string, c: string)
    requires DigitField(a) && DigitField(b) && DigitField(c)
    ensures Fields(a + ":" + b + ":" + c) == [a, b, c]
  {
    FieldsPlain(c);
    FieldsJoin(b, c);
    assert a + ":" + b + ":" + c == a + ":" + (b + ":" + c);
    FieldsJoin(a, b + ":" + c);
  }

  lemma FieldsOfTwo(a: string, b: string)
    requires DigitField(a) && DigitField(b)
    ensures Fields(a + ":" + b) == [a, b]
  {
    FieldsPlain(b);
    FieldsJoin(a, b);
  }

  lemma ClockSplit(total: nat)
    ensures total == total / 3600 * 3600 + total % 3600 / 60 * 60 + total % 60
    ensures total / 3600 == 0 ==> total == total % 3600 / 60 * 60 + total % 60
    ensures total % 3600 / 60 < 60 && (total / 3600 > 0 <==> total >= 3600)
  {
  }

  /** From one hour on the clock text has three fields that read back as the seconds. */
  lemma FormatTimeHours(seconds: real)
    requires WholeSeconds(seconds) >= 3600
    ensures ClockValue(FormatTime(seconds)) == Some(WholeSeconds(seconds))
    ensures |Fields(FormatTime(seconds))| == 3
  {
    var total := WholeSeconds(seconds);
    var h, m, s := total / 3600, total % 3600 / 60, total % 60;
    ClockSplit(total);
    Pad2RoundTrip(m);
    Pad2RoundTrip(s);
    NatToStringRoundTrip(h);
    var a, b, c := NatToString(h), Pad2(m), Pad2(s);
    var t := FormatTime(seconds);
    assert t == a + ":" + b + ":" + c;
    FieldsOfThree(a, b, c);
    var f := Fields(t);
    assert f[0] == a && f[1] == b && f[2] == c;
  }

  /** Below one hour the clock text has two fields that read back as the seconds. */
  lemma FormatTimeMinutes(seconds: real)
    requires WholeSeconds(seconds) < 3600
    ensures ClockValue(FormatTime(seconds)) == Some(WholeSeconds(seconds))
    ensures |Fields(FormatTime(seconds))| == 2
  {
    var total := WholeSeconds(seconds);
    var m, s := total % 3600 / 60, total % 60;
    ClockSplit(total);
    Pad2RoundTrip(s);
    NatToStringRoundTrip(m);
    var a, b := NatToString(m), Pad2(s);
    var t := FormatTime(seconds);
    assert t == a + ":" + b;
    FieldsOfTwo(a, b);
    var f := Fields(t);
    assert f[0] == a && f[1] == b;
  }

  /** Reading the clock text back gives the whole seconds it was made from, in three
      fields exactly when there is at least an hour. */
  lemma FormatTimeRoundTrip(seconds: real)
    ensures ClockValue(FormatTime(seconds)) == Some(WholeSeconds(seconds))
    ensures |Fields(FormatTime(seconds))| == (if WholeSeconds(seconds) >= 3600 then 3 else 2)
  {
    if WholeSeconds(seconds) >= 3600 {
      FormatTimeHours(seconds);
    } else {
      FormatTimeMinutes(seconds);
    }
  }

  // ---- Seek bar ---------------------------------------------------------------------

  /** `QSlider.setValue` keeps a value inside the slider's range. */
  function Clamp(v: int, lo: int, hi: int): (r: int)
    requires lo <= hi
    ensures lo <= r <= hi
    ensures lo <= v <= hi ==> r == v
  {
    if v < lo then lo else if v > hi then hi else v
  }

  /** `int((current / duration) * 1000)` for a non-negative time and a positive length. */
  function SeekFraction(current: int, duration: int): (r: int)
    requires current >= 0 && duration > 0
  {
    ((current as real / duration as real) * 1000.0).Floor
  }

  lemma FloorScaled(f: int, x: real, d: int, n: int)
    requires d > 0 && f as real <= x < f as real + 1.0 && x * (d as real) == n as real
    ensures f * d <= n < (f + 1) * d
  {
    var dr := d as real;
    var lo, hi := f * d, (f + 1) * d;
    assert lo as real == (f as real) * dr;
    assert hi as real == (f as real + 1.0) * dr;
    assert (f as real) * dr <= x * dr by {
      assert (x - f as real) * dr >= 0.0;
    }
    assert x * dr < (f as real + 1.0) * dr by {
      assert (f as real + 1.0 - x) * dr > 0.0;
    }
    calc {
      n as real;
      x * dr;
    <
      (f as real + 1.0) * dr;
      hi as real;
    }
  }

  /** Scaling `c / d` by 1000 and multiplying back by `d` gives `1000 * c`. */
  lemma ScaledTimesLength(c: int, d: int)
    requires d > 0
    ensures ((c as real / d as real) * 1000.0) * (d as real) == (c * 1000) as real
  {
    var q := c as real / d as real;
    assert q * (d as real) == c as real;
  }

  /** The scaled share grows with the elapsed time and is at most 1000 within the length. */
  lemma ScaledShareBounds(c: int, l: int, d: int)
    requires 0 <= c <= l && d > 0
    ensures 0.0 <= (c as real / d as real) * 1000.0 <= (l as real / d as real) * 1000.0
    ensures l <= d ==> (l as real / d as real) * 1000.0 <= 1000.0
  {
    var dr := d as real;
    assert c as real / dr <= l as real / dr;
    if l <= d {
      assert l as real / dr <= 1.0;
    }
  }

  /** The slider reads the elapsed share of the length in thousandths, rounded down:
      within the length it stays in 0..1000 and it never goes back as time goes on. */
  lemma SeekFractionBounds(current: int, later: int, duration: int)
    requires 0 <= current <= later && duration > 0
    ensures SeekFraction(current, duration) * duration <= current * 1000
    ensures current * 1000 < (SeekFraction(current, duration) + 1) * duration
    ensures SeekFraction(current, duration) <= SeekFraction(later, duration)
    ensures later <= duration ==> 0 <= SeekFraction(later, duration) <= 1000
  {
    var d := duration as real;
    var x := (current as real / d) * 1000.0;
    ScaledTimesLength(current, duration);
    ScaledShareBounds(current, later, duration);
    FloorScaled(SeekFraction(current, duration), x, duration, current * 1000);
  }

  // ---- The player ----------------------------------------------------------------

  /** A catalog write, in seconds. */
  datatype Write = PositionWrite(movieId: int, seconds: real) | DurationWrite(movieId: int, seconds: real)

  /** No write stores a negative position or a non-positive length. */
  ghost predicate SaneWrites(writes: seq<Write>) {
    forall i :: 0 <= i < |writes| ==>
      (writes[i].PositionWrite? ==> writes[i].seconds >= 0.0)
      && (writes[i].DurationWrite? ==> writes[i].seconds > 0.0)
  }

  const SkipMillis := 10 * 1000

  /** What `_save_position` writes for movie `m` when VLC reports time `ms` and length
      `length`: the time if positive, then the length if positive and not yet known. */
  function SaveWrites(m: Movie, ms: int, length: int): (r: seq<Write>)
    ensures |r| <= 2 && SaneWrites(r)
    ensures forall i :: 0 <= i < |r| ==> r[i].movieId == m.id
    ensures (exists i :: 0 <= i < |r| && r[i].PositionWrite?) <==> ms > 0
    ensures (exists i :: 0 <= i < |r| && r[i].DurationWrite?) <==> length > 0 && m.duration == 0.0
  {
    var position := if ms > 0 then [PositionWrite(m.id, ms as real / 1000.0)] else [];
    var known := if length > 0 && m.duration == 0.0 then [DurationWrite(m.id, length as real / 1000.0)] else [];
    assert position != [] ==> (position + known)[0].PositionWrite?;
    assert known != [] ==> (position + known)[|position|].DurationWrite?;
    position + known
  }

  /** Appending sane writes keeps the log sane. */
  lemma SaneAppend(a: seq<Write>, b: seq<Write>)
    requires SaneWrites(a) && SaneWrites(b)
    ensures SaneWrites(a + b)
  {
    forall i | 0 <= i < |a + b|
      ensures ((a + b)[i].PositionWrite? ==> (a + b)[i].seconds >= 0.0)
        && ((a + b)[i].DurationWrite? ==> (a + b)[i].seconds > 0.0)
    {
      if i >= |a| {
        assert (a + b)[i] == b[i - |a|];
      }
    }
  }

  class PlayerWidget {
    /** `_media_player` has been made (and not released). */
    var hasPlayer: bool
    var movie: Option<Movie>
    var isPlaying: bool
    var isFullscreen: bool
    /** `_duration`: the last positive length VLC reported, in milliseconds. */
    var duration: int
    var seeking: bool
    var volume: int
    var seekValue: int
    var timerRunning: bool
    /** `set_time` calls, in milliseconds. */
    var timeSets: seq<int>
    /** `set_position` calls, as a fraction of the length. */
    var positionSets: seq<real>
    var writes: seq<Write>

    ghost predicate Valid()
      reads this`volume, this`seekValue, this`duration, this`writes
    {
      0 <= volume <= 100 && 0 <= seekValue <= 1000 && duration >= 0 && SaneWrites(writes)
    }

    constructor()
      ensures Valid()
      ensures !hasPlayer && movie.None? && !isPlaying && !isFullscreen && !seeking
      ensures duration == 0 && volume == 100 && seekValue == 0 && !timerRunning
      ensures timeSets == [] && positionSets == [] && writes == []
    {
      hasPlayer, movie, isPlaying, isFullscreen := false, None, false, false;
      duration, seeking, volume, seekValue, timerRunning := 0, false, 100, 0, false;
      timeSets, positionSets, writes := [], [], [];
    }

    /** `load_movie`, without VLC nothing changes; otherwise playback starts. */
    method LoadMovie(m: Movie, vlcAvailable: bool)
      modifies this`movie, this`hasPlayer, this`isPlaying, this`timerRunning
      ensures !vlcAvailable ==>
        && movie == old(movie) && hasPlayer == old(hasPlayer)
        && isPlaying == old(isPlaying) && timerRunning == old(timerRunning)
      ensures vlcAvailable ==> movie == Some(m) && hasPlayer && isPlaying && timerRunning
    {
      if !vlcAvailable {
        return;
      }
      movie := Some(m);
      hasPlayer := true;
      isPlaying := true;
      timerRunning := true;
    }

    /** `_save_position`: with a player and a movie, a positive time is stored, and a
        positive length is stored only while the movie's known length is 0. */
    method SavePosition(ms: int, length: int)
      requires Valid()
      modifies this`writes
      ensures Valid()
      ensures !hasPlayer || movie.None? ==> writes == old(writes)
      ensures hasPlayer && movie.Some? ==> writes == old(writes) + SaveWrites(movie.value, ms, length)
    {
      if !hasPlayer || movie.None? {
        return;
      }
      var id := movie.value.id;
      if ms > 0 {
        writes := writes + [PositionWrite(id, ms as real / 1000.0)];
      }
      if length > 0 && movie.value.duration == 0.0 {
        writes := writes + [DurationWrite(id, length as real / 1000.0)];
      }
      SaneAppend(old(writes), SaveWrites(movie.value, ms, length));
    }

    /** `stop`: the position is saved first, then playback and the timer stop. */
    method Stop(ms: int, length: int)
      requires Valid()
      modifies this`writes, this`isPlaying, this`timerRunning
      ensures Valid() && !isPlaying && !timerRunning
      ensures hasPlayer && movie.Some? ==> writes == old(writes) + SaveWrites(movie.value, ms, length)
      ensures !hasPlayer || movie.None? ==> writes == old(writes)
    {
      if hasPlayer {
        SavePosition(ms, length);
      }
      isPlaying := false;
      timerRunning := false;
    }

    /** `toggle_play_pause`: flips playing, and does nothing without a player. */
    method TogglePlayPause()
      modifies this`isPlaying
      ensures isPlaying == (if hasPlayer then !old(isPlaying) else old(isPlaying))
    {
      if !hasPlayer {
        return;
      }
      isPlaying := !isPlaying;
    }

    /** `skip_forward`: ten seconds on from a known time `c`. */
    method SkipForward(c: int)
      modifies this`timeSets
      ensures hasPlayer && c >= 0 ==> timeSets == old(timeSets) + [c + SkipMillis]
      ensures !(hasPlayer && c >= 0) ==> timeSets == old(timeSets)
    {
      if hasPlayer && c >= 0 {
        timeSets := timeSets + [c + SkipMillis];
      }
    }

    /** `skip_backward`: ten seconds back from a known time `c`, not before the start. */
    method SkipBackward(c: int)
      modifies this`timeSets
      ensures hasPlayer && c >= 0 ==>
        && |timeSets| == |old(timeSets)| + 1 && timeSets[..|old(timeSets)|] == old(timeSets)
        && var t := timeSets[|old(timeSets)|];
           0 <= t <= c && (t == 0 || t == c - SkipMillis) && (c >= SkipMillis ==> t == c - SkipMillis)
      ensures !(hasPlayer && c >= 0) ==> timeSets == old(timeSets)
    {
      if hasPlayer && c >= 0 {
        timeSets := timeSets + [if c - SkipMillis > 0 then c - SkipMillis else 0];
      }
    }

    /** `toggle_fullscreen`. */
    method ToggleFullscreen()
      modifies this`isFullscreen
      ensures isFullscreen == !old(isFullscreen)
    {
      isFullscreen := !isFullscreen;
    }

    /** `cleanup`: the timer stops, the position is saved and the player released. */
    method Cleanup(ms: int, length: int)
      requires Valid()
      modifies this`timerRunning, this`writes, this`hasPlayer
      ensures Valid() && !hasPlayer && !timerRunning
      ensures old(hasPlayer) && movie.Some? ==> writes == old(writes) + SaveWrites(movie.value, ms, length)
      ensures !old(hasPlayer) || movie.None? ==> writes == old(writes)
    {
      timerRunning := false;
      if hasPlayer {
        SavePosition(ms, length);
        hasPlayer := false;
      }
    }

    /** `_on_seek_start`. */
    method OnSeekStart()
      modifies this`seeking
      ensures seeking
    {
      seeking := true;
    }

    /** A drag of the seek bar (the slider's own value change; `_on_seek_moved` only
        retitles the time label): the bar holds the dragged value within its range
        0..1000. */
    method SliderMoved(v: int)
      requires Valid()
      modifies this`seekValue
      ensures Valid()
      ensures 0 <= v <= 1000 ==> seekValue == v
      ensures v < 0 ==> seekValue == 0
      ensures v > 1000 ==> seekValue == 1000
    {
      seekValue := Clamp(v, 0, 1000);
    }

    /** `_on_seek_end`: the player jumps to the slider's share of the length, once the
        length is known. */
    method OnSeekEnd()
      requires Valid()
      modifies this`seeking, this`positionSets
      ensures !seeking
      ensures hasPlayer && duration > 0 ==> positionSets == old(positionSets) + [seekValue as real / 1000.0]
      ensures !(hasPlayer && duration > 0) ==> positionSets == old(positionSets)
      ensures forall i :: 0 <= i < |old(positionSets)| ==> positionSets[i] == old(positionSets)[i]
      ensures forall i :: |old(positionSets)| <= i < |positionSets| ==> 0.0 <= positionSets[i] <= 1.0
    {
      seeking := false;
      if hasPlayer && duration > 0 {
        positionSets := positionSets + [seekValue as real / 1000.0];
      }
    }

    /** `_volume_up`: five more, at most 100. */
    method VolumeUp()
      requires Valid()
      modifies this`volume
      ensures Valid()
      ensures volume == if old(volume) + 5 <= 100 then old(volume) + 5 else 100
      ensures volume >= old(volume)
    {
      volume := Clamp(volume + 5, 0, 100);
    }

    /** `_volume_down`: five less, at least 0. */
    method VolumeDown()
      requires Valid()
      modifies this`volume
      ensures Valid()
      ensures volume == if old(volume) - 5 >= 0 then old(volume) - 5 else 0
      ensures volume <= old(volume)
    {
      volume := Clamp(volume - 5, 0, 100);
    }

    /** `_update_ui`, one timer tick: a positive length is remembered; unless the user is
        dragging, the slider follows a known time; at the end of the media playback stops
        and the stored position goes back to 0; while still playing a positive time is
        stored. */
    method UpdateUi(length: int, current: int, ended: bool, ms: int)
      requires Valid()
      modifies this`duration, this`seekValue, this`isPlaying, this`timerRunning, this`writes
      ensures Valid()
      ensures !hasPlayer ==>
        && duration == old(duration) && seekValue == old(seekValue) && isPlaying == old(isPlaying)
        && timerRunning == old(timerRunning) && writes == old(writes)
      ensures hasPlayer ==>
        && duration == (if length > 0 then length else old(duration))
        && seekValue == (if !seeking && current >= 0 && duration > 0
                         then Clamp(SeekFraction(current, duration), 0, 1000) else old(seekValue))
        && isPlaying == (old(isPlaying) && !ended)
        && timerRunning == (old(timerRunning) && !ended)
        && writes == old(writes)
          + (if ended && movie.Some? then [PositionWrite(movie.value.id, 0.0)] else [])
          + (if isPlaying && movie.Some? && ms > 0 then [PositionWrite(movie.value.id, ms as real / 1000.0)] else [])
      ensures hasPlayer && ended && movie.Some? ==> writes == old(writes) + [PositionWrite(movie.value.id, 0.0)]
    {
      if !hasPlayer {
        return;
      }
      FollowMedia(length, current);
      CheckEnd(ended, ms);
    }

    /** The first half of a tick: the length and the slider follow the media. */
    method FollowMedia(length: int, current: int)
      requires Valid()
      modifies this`duration, this`seekValue
      ensures Valid()
      ensures duration == (if length > 0 then length else old(duration))
      ensures seekValue == (if !seeking && current >= 0 && duration > 0
                            then Clamp(SeekFraction(current, duration), 0, 1000) else old(seekValue))
    {
      if length > 0 {
        duration := length;
      }
      if !seeking && current >= 0 && duration > 0 {
        seekValue := Clamp(SeekFraction(current, duration), 0, 1000);
      }
    }

    /** The second half of a tick: at the end of the media playback stops and the stored
        position goes back to 0; while still playing a positive time is stored. */
    method CheckEnd(ended: bool, ms: int)
      requires Valid()
      modifies this`isPlaying, this`timerRunning, this`writes
      ensures Valid()
      ensures isPlaying == (old(isPlaying) && !ended) && timerRunning == (old(timerRunning) && !ended)
      ensures writes == old(writes)
        + (if ended && movie.Some? then [PositionWrite(movie.value.id, 0.0)] else [])
        + (if isPlaying && movie.Some? && ms > 0 then [PositionWrite(movie.value.id, ms as real / 1000.0)] else [])
    {
      if ended {
        isPlaying := false;
        timerRunning := false;
        if movie.Some? {
          writes := writes + [PositionWrite(movie.value.id, 0.0)];
        }
      }
      if isPlaying && movie.Some? && ms > 0 {
        writes := writes + [PositionWrite(movie.value.id, ms as real / 1000.0)];
      }
    }
  }
}
