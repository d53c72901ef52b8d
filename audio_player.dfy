/**
 * The audio player widget: a human-readable duration text, and the page-wide
 * protocol by which starting one player pauses every other.
 */
module AudioPlayer {
  import opened Wrappers
  import opened Strings

  /** `HAVE_METADATA` of the media element's ready states. */
  const HAVE_METADATA: nat := 1

  // ---------------------------------------------------------------------------
  // Duration text

  /** Whole hours in a duration of d seconds. */
  function Hours(d: nat): (h: nat)
    ensures h * 3600 <= d < h * 3600 + 3600
  {
    d / 3600
  }

  /** Whole minutes left over after the whole hours. */
  function Minutes(d: nat): (m: nat)
    ensures m < 60
    ensures Hours(d) * 3600 + m * 60 <= d < Hours(d) * 3600 + m * 60 + 60
  {
    (d - Hours(d) * 3600) / 60
  }

  /** Hours and minutes are the only pair with minutes below 60 that brackets d to the minute. */
  lemma HoursMinutesUnique(d: nat, h: nat, m: nat)
    requires m < 60
    requires h * 3600 + m * 60 <= d < h * 3600 + m * 60 + 60
    ensures h == Hours(d) && m == Minutes(d)
  {
  }

  /** One part of the text: `${n} ${abbreviation}`. */
  function Unit(n: nat, abbreviation: string): string
  {
    Decimal(n) + " " + abbreviation
  }

  /** The parts of the text: hours, then minutes, each only when it is not zero. */
  function DurationParts(d: nat, hoursAbbreviation: string, minutesAbbreviation: string): seq<string>
  {
    (if Hours(d) != 0 then [Unit(Hours(d), hoursAbbreviation)] else [])
    + (if Minutes(d) != 0 then [Unit(Minutes(d), minutesAbbreviation)] else [])
  }

  /**
   * `getFormatedDuration`: no value (JavaScript's `undefined`) before the metadata is
   * loaded, otherwise the parts joined by `join`'s default separator ",".
   */
  function FormattedDuration(readyState: nat, d: nat, hoursAbbreviation: string, minutesAbbreviation: string): (r: Option<string>)
    ensures r.None? <==> readyState < HAVE_METADATA
    ensures r.Some? && d < 60 ==> r.value == ""
    ensures r.Some? && r.value == "" ==> d < 60
  {
    if readyState < HAVE_METADATA then None
    else Some(Join(DurationParts(d, hoursAbbreviation, minutesAbbreviation), ','))
  }

  lemma FormattedDurationExamples(h: string, m: string)
    ensures FormattedDuration(HAVE_METADATA, 3661, h, m) == Some("1 " + h + ",1 " + m)
    ensures FormattedDuration(HAVE_METADATA, 61, h, m) == Some("1 " + m)
    ensures FormattedDuration(HAVE_METADATA, 7200, h, m) == Some("2 " + h)
    ensures FormattedDuration(HAVE_METADATA, 59, h, m) == Some("")
    ensures FormattedDuration(0, 3661, h, m) == None
  {
    assert Decimal(1) == "1" && Decimal(2) == "2";
    assert Unit(1, h) == "1 " + h && Unit(1, m) == "1 " + m && Unit(2, h) == "2 " + h;
    assert Hours(3661) == 1 && Minutes(3661) == 1;
    assert DurationParts(3661, h, m) == ["1 " + h, "1 " + m];
    assert ["1 " + h, "1 " + m][1..] == ["1 " + m];
    assert Join(["1 " + h, "1 " + m], ',') == "1 " + h + [','] + "1 " + m;
    assert "1 " + h + [','] + "1 " + m == "1 " + h + ",1 " + m;
    assert Hours(61) == 0 && Minutes(61) == 1;
    assert DurationParts(61, h, m) == ["1 " + m];
    assert Hours(7200) == 2 && Minutes(7200) == 0;
    assert DurationParts(7200, h, m) == ["2 " + h];
  }

  // Reading the text back

  /** The number in a part `${n} ${abbreviation}`, if p is such a part. */
  function ParseUnit(p: string, abbreviation: string): Option<nat>
  {
    var k := |p| - |abbreviation| - 1;
    if 1 <= k && p[k..] == [' '] + abbreviation && AllDigits(p[..k]) then Some(ParseDecimal(p[..k])) else None
  }

  lemma ParseUnitOfUnit(n: nat, abbreviation: string)
    ensures ParseUnit(Unit(n, abbreviation), abbreviation) == Some(n)
  {
    var p, d := Unit(n, abbreviation), Decimal(n);
    assert p[|d|..] == [' '] + abbreviation;
    assert p[..|d|] == d;
    ParseDecimalOfDecimal(n);
  }

  /** A part made with one abbreviation is not read as a part with a different one. */
  lemma ParseUnitOtherAbbreviation(n: nat, a: string, b: string)
    requires a != b
    ensures ParseUnit(Unit(n, a), b) == None
  {
    var p, d := Unit(n, a), Decimal(n);
    var k := |p| - |b| - 1;
    if |b| == |a| {
      assert p[k..] == [' '] + a;
      assert ([' '] + a)[1..] == a && ([' '] + b)[1..] == b;
    } else if |b| < |a| {
      if 1 <= k {
        assert p[..k][|d|] == ' ';
      }
    } else if 1 <= k {
      assert p[k..][0] == d[k];
    }
  }

  lemma UnitHasNoComma(n: nat, abbreviation: string)
    requires ',' !in abbreviation
    ensures ',' !in Unit(n, abbreviation)
  {
  }

  /** Reads hours and minutes back from the duration text; a part whose count is 0 is refused, as no such part is ever written. */
  function DecodeDuration(s: string, hoursAbbreviation: string, minutesAbbreviation: string): Option<(nat, nat)>
  {
    if s == "" then Some((0, 0))
    else
      var parts := Split(s, ',');
      if |parts| == 1 then
        match ParseUnit(parts[0], hoursAbbreviation)
        case Some(h) => if h == 0 then None else Some((h, 0))
        case None =>
          match ParseUnit(parts[0], minutesAbbreviation)
          case Some(m) => if m == 0 then None else Some((0, m))
          case None => None
      else if |parts| == 2 then
        match (ParseUnit(parts[0], hoursAbbreviation), ParseUnit(parts[1], minutesAbbreviation))
        case (Some(h), Some(m)) => if h == 0 || m == 0 then None else Some((h, m))
        case _ => None
      else None
  }

  /**
   * The text determines the hours and minutes it was made from, provided the two
   * abbreviations differ and hold no comma.
   */
  lemma {:induction false} DecodeFormattedDuration(readyState: nat, d: nat, hoursAbbreviation: string, minutesAbbreviation: string)
    requires HAVE_METADATA <= readyState
    requires ',' !in hoursAbbreviation && ',' !in minutesAbbreviation && hoursAbbreviation != minutesAbbreviation
    ensures FormattedDuration(readyState, d, hoursAbbreviation, minutesAbbreviation).Some?
    ensures DecodeDuration(FormattedDuration(readyState, d, hoursAbbreviation, minutesAbbreviation).value,
                           hoursAbbreviation, minutesAbbreviation) == Some((Hours(d), Minutes(d)))
  {
    var h, m := Hours(d), Minutes(d);
    var parts := DurationParts(d, hoursAbbreviation, minutesAbbreviation);
    var s := Join(parts, ',');
    UnitHasNoComma(h, hoursAbbreviation);
    UnitHasNoComma(m, minutesAbbreviation);
    if h != 0 {
      ParseUnitOfUnit(h, hoursAbbreviation);
    }
    if m != 0 {
      ParseUnitOfUnit(m, minutesAbbreviation);
      ParseUnitOtherAbbreviation(m, minutesAbbreviation, hoursAbbreviation);
    }
    if h != 0 || m != 0 {
      SplitOfJoin(parts, ',');
      assert s != "" by {
        assert |parts[0]| > 0;
        if |parts| == 2 {
          assert |s| >= |parts[0]|;
        }
      }
    }
  }

  /** A text holding a part with count 0, in either place, is not one the player writes. */
  lemma DecodeRefusesZeroUnit(n: nat, h: string, m: string)
    requires ',' !in h && ',' !in m
    ensures DecodeDuration(Unit(0, h), h, m) == None
    ensures DecodeDuration(Unit(0, m), h, m) == None
    ensures DecodeDuration(Join([Unit(0, h), Unit(n, m)], ','), h, m) == None
    ensures DecodeDuration(Join([Unit(n, h), Unit(0, m)], ','), h, m) == None
  {
    UnitHasNoComma(0, h);
    UnitHasNoComma(0, m);
    UnitHasNoComma(n, h);
    UnitHasNoComma(n, m);
    ParseUnitOfUnit(0, h);
    ParseUnitOfUnit(0, m);
    ParseUnitOfUnit(n, h);
    ParseUnitOfUnit(n, m);
    if h != m {
      ParseUnitOtherAbbreviation(0, m, h);
    }
    SplitWithoutSeparator(Unit(0, h), ',');
    SplitWithoutSeparator(Unit(0, m), ',');
    assert [Unit(0, h), Unit(n, m)][1..] == [Unit(n, m)];
    assert [Unit(n, h), Unit(0, m)][1..] == [Unit(0, m)];
    SplitOfJoin([Unit(0, h), Unit(n, m)], ',');
    SplitOfJoin([Unit(n, h), Unit(0, m)], ',');
  }

  /** Two durations shown alike have the same hours and minutes. */
  lemma SameTextSameHoursMinutes(readyState: nat, d1: nat, d2: nat, hoursAbbreviation: string, minutesAbbreviation: string)
    requires HAVE_METADATA <= readyState
    requires ',' !in hoursAbbreviation && ',' !in minutesAbbreviation && hoursAbbreviation != minutesAbbreviation
    requires FormattedDuration(readyState, d1, hoursAbbreviation, minutesAbbreviation)
          == FormattedDuration(readyState, d2, hoursAbbreviation, minutesAbbreviation)
    ensures Hours(d1) == Hours(d2) && Minutes(d1) == Minutes(d2)
  {
    DecodeFormattedDuration(readyState, d1, hoursAbbreviation, minutesAbbreviation);
    DecodeFormattedDuration(readyState, d2, hoursAbbreviation, minutesAbbreviation);
  }

  // ---------------------------------------------------------------------------
  // Players on a page

  /** One player: its audio element's state and its own attributes and duration text. */
  datatype Player = Player(
    paused: bool,               // the audio element's `paused`
    playing: bool,              // the `playing` attribute
    readyState: nat,            // the audio element's `readyState`
    duration: nat,              // the audio element's `duration`, in whole seconds
    hoursAbbreviation: string,  // `data-hours-abbreviation`
    minutesAbbreviation: string,// `data-minutes-abbreviation`
    hasDurationElement: bool,   // whether a `[data-duration]` element exists
    durationText: Option<string>) // the value last assigned to that element's `innerText`

  /** `AudioPlayer:play` and `AudioPlayer:pause`. */
  datatype EventName = PlayEvent | PauseEvent

  /** What a player does that others can observe: a broadcast, or a call on its audio element. */
  datatype Action = Emit(name: EventName, source: nat) | AudioPlay(player: nat) | AudioPause(player: nat)

  /** `render`: assign the duration text when there is an element to hold it. */
  function Rendered(p: Player): Player
  {
    if p.hasDurationElement
    then p.(durationText := FormattedDuration(p.readyState, p.duration, p.hoursAbbreviation, p.minutesAbbreviation))
    else p
  }

  /** The players' audio after player i has played: i runs, every other is paused. */
  function AfterPlay(ps: seq<Player>, i: nat): (r: seq<Player>)
    requires i < |ps|
  {
    seq(|ps|, k requires 0 <= k < |ps| => ps[k].(paused := k != i))
  }

  /** Indices of the players whose audio is not paused. */
  function Unpaused(ps: seq<Player>): set<int>
  {
    set k | 0 <= k < |ps| && !ps[k].paused
  }

  predicate AtMostOneUnpaused(ps: seq<Player>)
  {
    forall j, k :: 0 <= j < k < |ps| ==> ps[j].paused || ps[k].paused
  }

  /** After player i plays, it is the only player whose audio runs; nothing but `paused` changes. */
  lemma AfterPlayOnlyOne(ps: seq<Player>, i: nat)
    requires i < |ps|
    ensures Unpaused(AfterPlay(ps, i)) == {i}
    ensures AtMostOneUnpaused(AfterPlay(ps, i))
    ensures forall k :: 0 <= k < |ps| ==> AfterPlay(ps, i)[k].(paused := ps[k].paused) == ps[k]
  {
  }

  /** The `playing` attribute set from `!paused` on every player. */
  function Mirrored(ps: seq<Player>): seq<Player>
  {
    seq(|ps|, k requires 0 <= k < |ps| => ps[k].(playing := !ps[k].paused))
  }

  /** Once every player has seen its native play or pause event, only player i shows as playing. */
  lemma MirroredAfterPlay(ps: seq<Player>, i: nat)
    requires i < |ps|
    ensures forall k :: 0 <= k < |ps| ==> (Mirrored(AfterPlay(ps, i))[k].playing <==> k == i)
  {
  }

  /**
   * What delivering player i's play broadcast to the document listeners of players
   * 0 .. n-1 does: each of them but i pauses, broadcasting `AudioPlayer:pause` first.
   */
  function PauseOthers(i: nat, n: nat): seq<Action>
    decreases n
  {
    if n == 0 then []
    else PauseOthers(i, n - 1) + (if n - 1 == i then [] else [Emit(PauseEvent, n - 1), AudioPause(n - 1)])
  }

  /** What `play()` on player i of n does, in order. */
  function PlayActions(i: nat, n: nat): seq<Action>
  {
    [Emit(PlayEvent, i)] + PauseOthers(i, n) + [AudioPlay(i)]
  }

  /** The broadcast pauses every listener other than its source, and the source never. */
  lemma {:induction false} PauseOthersPauses(i: nat, n: nat, j: nat)
    requires j < n
    ensures AudioPause(j) in PauseOthers(i, n) <==> j != i
    decreases n
  {
    if j < n - 1 {
      PauseOthersPauses(i, n - 1, j);
    } else {
      PauseOthersOnly(i, n - 1);
    }
  }

  /** Delivering the broadcast only pauses listeners below n and never starts or broadcasts play. */
  lemma {:induction false} PauseOthersOnly(i: nat, n: nat)
    ensures forall a :: a in PauseOthers(i, n) ==> ((a.Emit? && a.name == PauseEvent) || a.AudioPause?) && a != AudioPause(i)
    ensures forall a :: a in PauseOthers(i, n) ==> !a.AudioPlay? && (a.AudioPause? ==> a.player < n)
    decreases n
  {
    if n > 0 {
      PauseOthersOnly(i, n - 1);
    }
  }

  /** `play()` broadcasts first and starts its own audio last, never in between. */
  lemma PlayActionsOrder(i: nat, n: nat)
    ensures PlayActions(i, n)[0] == Emit(PlayEvent, i)
    ensures PlayActions(i, n)[|PlayActions(i, n)| - 1] == AudioPlay(i)
    ensures forall k :: 0 <= k < |PlayActions(i, n)| - 1 ==> !PlayActions(i, n)[k].AudioPlay?
    ensures AudioPause(i) !in PlayActions(i, n)
  {
    var a := PlayActions(i, n);
    PauseOthersOnly(i, n);
    forall k | 0 <= k < |a| - 1 ensures !a[k].AudioPlay? {
      if k > 0 {
        assert a[k] in PauseOthers(i, n);
      }
    }
  }

  /** The page: every connected player, each with its document listener for `AudioPlayer:play`. */
  class Page {
    /** The players, in the order they connected (and so registered their listeners). */
    const players: array<Player>
    /** Broadcasts and audio calls, in the order they happened. */
    var trace: seq<Action>

    /** Every player connects and renders its duration text. */
    constructor (initial: seq<Player>)
      ensures fresh(players) && players[..] == seq(|initial|, k requires 0 <= k < |initial| => Rendered(initial[k]))
      ensures trace == []
    {
      players := new Player[|initial|](k requires 0 <= k < |initial| => initial[k]);
      trace := [];
      new;
      var i := 0;
      while i < players.Length
        invariant 0 <= i <= players.Length
        invariant forall k :: 0 <= k < i ==> players[k] == Rendered(initial[k])
        invariant forall k :: i <= k < players.Length ==> players[k] == initial[k]
        invariant trace == []
      {
        Render(i);
        i := i + 1;
      }
    }

    /** `render` on player i. */
    method Render(i: nat)
      requires i < players.Length
      modifies players
      ensures players[..] == old(players[..])[i := Rendered(old(players[i]))]
      ensures !old(players[i]).hasDurationElement ==> players[..] == old(players[..])
    {
      players[i] := Rendered(players[i]);
    }

    /** The `loadedmetadata` handler, after the audio element reports its ready state and duration. */
    method LoadedMetadata(i: nat, readyState: nat, duration: nat)
      requires i < players.Length
      modifies players
      ensures players[..] == old(players[..])[i := Rendered(old(players[i]).(readyState := readyState, duration := duration))]
    {
      players[i] := players[i].(readyState := readyState, duration := duration);
      Render(i);
    }

    /** `pause()` on player i: broadcast `AudioPlayer:pause`, which no player listens to, then pause the audio. */
    method Pause(i: nat)
      requires i < players.Length
      modifies this`trace, players
      ensures players[..] == old(players[..])[i := old(players[i]).(paused := true)]
      ensures trace == old(trace) + [Emit(PauseEvent, i), AudioPause(i)]
      ensures old(AtMostOneUnpaused(players[..])) ==> AtMostOneUnpaused(players[..])
    {
      trace := trace + [Emit(PauseEvent, i)];
      players[i] := players[i].(paused := true);
      trace := trace + [AudioPause(i)];
    }

    /** Player j's document listener receiving a play broadcast from player source: pause unless j is the source. */
    method PlayBroadcastReceived(j: nat, source: nat)
      requires j < players.Length
      modifies this`trace, players
      ensures source == j ==> players[..] == old(players[..]) && trace == old(trace)
      ensures source != j ==>
        players[..] == old(players[..])[j := old(players[j]).(paused := true)] &&
        trace == old(trace) + [Emit(PauseEvent, j), AudioPause(j)]
    {
      if source != j {
        Pause(j);
      }
    }

    /** `play()` on player i: broadcast `AudioPlayer:play`, delivered at once to every listener, then play the audio. */
    method Play(i: nat)
      requires i < players.Length
      modifies this`trace, players
      ensures players[..] == AfterPlay(old(players[..]), i)
      ensures trace == old(trace) + PlayActions(i, players.Length)
      ensures Unpaused(players[..]) == {i}
    {
      trace := trace + [Emit(PlayEvent, i)];
      var j := 0;
      while j < players.Length
        invariant 0 <= j <= players.Length
        invariant forall k :: 0 <= k < players.Length ==>
          players[k] == if k < j && k != i then old(players[k]).(paused := true) else old(players[k])
        invariant trace == old(trace) + [Emit(PlayEvent, i)] + PauseOthers(i, j)
      {
        PlayBroadcastReceived(j, i);
        j := j + 1;
      }
      players[i] := players[i].(paused := false);
      trace := trace + [AudioPlay(i)];
      assert players[..] == AfterPlay(old(players[..]), i);
      AfterPlayOnlyOne(old(players[..]), i);
    }

    /** `playPause()` on player i: the play path exactly when its audio is paused. */
    method PlayPause(i: nat)
      requires i < players.Length
      modifies this`trace, players
      ensures old(players[i].paused) ==>
        players[..] == AfterPlay(old(players[..]), i) &&
        trace == old(trace) + PlayActions(i, players.Length)
      ensures !old(players[i].paused) ==>
        players[..] == old(players[..])[i := old(players[i]).(paused := true)] &&
        trace == old(trace) + [Emit(PauseEvent, i), AudioPause(i)]
      ensures players[i].paused == !old(players[i].paused)
      ensures old(AtMostOneUnpaused(players[..])) ==> AtMostOneUnpaused(players[..])
    {
      if players[i].paused {
        Play(i);
        AfterPlayOnlyOne(old(players[..]), i);
      } else {
        Pause(i);
      }
    }

    /** The native `play` or `pause` handler of player i: `playing` takes the value `!paused`. */
    method MediaPlayOrPause(i: nat)
      requires i < players.Length
      modifies players
      ensures players[..] == old(players[..])[i := old(players[i]).(playing := !old(players[i]).paused)]
      ensures players[i].playing == !players[i].paused
    {
      players[i] := players[i].(playing := !players[i].paused);
    }
  }
}
