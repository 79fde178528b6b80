/** Playlist navigation: the shared `State` object (current index, loop mode,
    shuffle flag, shuffle order, track list) and the TrackManager /
    PlaybackControls operations that move through it.

    Each operation is specified by a pure transition on a `Nav` snapshot of
    that state; the class `Player` holds the state as fields and runs the
    operations step by step, proved equal to those transitions. The media
    element's reactions are outputs (`Effect`), not state. */
module Playback {
  import opened Shuffle
  import FileNames

  /** `State.loopMode`: 'none', 'all' or 'one'. */
  datatype LoopMode = None | All | One

  /** The list toggleLoop cycles through, in its order. */
  const LoopModes: seq<LoopMode> := [None, All, One]

  /** What an operation asks of the audio element. */
  datatype Effect =
    | Load(track: nat)  // `DOM.audio.src = tracks[track].url`
    | Play              // `DOM.audio.play()`
    | Pause             // `DOM.audio.pause()`
    | SeekToZero        // `DOM.audio.currentTime = 0`

  /** The operation finished with these effects, or threw a TypeError
      (reading `.url` of an undefined track). */
  datatype Outcome = Done(effects: seq<Effect>) | TypeError

  /** The part of `State` navigation reads and writes; `count` is
      `State.tracks.length`. */
  datatype Nav = Nav(count: nat, index: int, loopMode: LoopMode, isShuffle: bool, order: seq<int>)
  {
    /** The current index is a track, or 0 while the playlist is empty. */
    predicate IndexInRange() {
      (count == 0 ==> index == 0) &&
      (count > 0 ==> 0 <= index < count)
    }

    /** What every state reached without a prior throw satisfies: the
        shuffle order is a permutation of the track indices and the index
        is in range. (After a TypeError the source has stored `undefined`
        as the index; such states are outside the model.) */
    ghost predicate Valid() {
      IsPermutation(order, count) && IndexInRange()
    }
  }

  datatype Transition = Transition(nav: Nav, outcome: Outcome)

  /** `Array.prototype.indexOf`: the first position holding x, or -1. */
  function IndexOf<T(==)>(s: seq<T>, x: T): (r: int)
    ensures -1 <= r < |s|
    ensures r == -1 <==> x !in s
    ensures r >= 0 ==> s[r] == x && x !in s[..r]
  {
    if s == [] then -1
    else if s[0] == x then 0
    else
      var t := IndexOf(s[1..], x);
      assert s[1..][..if t < 0 then 0 else t] == s[1..1 + if t < 0 then 0 else t];
      if t == -1 then -1 else t + 1
  }

  /** JavaScript's `%` for a positive divisor: the remainder takes the sign
      of the dividend (`-1 % 1` is `-0`, which indexes like 0). */
  function JsRem(a: int, b: int): (r: int)
    requires b > 0
    ensures a >= 0 ==> 0 <= r < b
    ensures a < 0 ==> -b < r <= 0
  {
    if a >= 0 then a % b else -((-a) % b)
  }

  /** PlaybackControls.play: does nothing while no track is loaded. */
  function PlayEffects(count: nat): (r: seq<Effect>)
    ensures |r| <= 1 && forall e :: e in r ==> e == Play
    ensures |r| == 1 <==> count > 0
  {
    if count == 0 then [] else [Play]
  }

  /** PlaybackControls.toggleLoop: the mode after the current one in
      LoopModes, wrapping around. */
  function NextLoopMode(m: LoopMode): (r: LoopMode)
    ensures r != m
  {
    var i := IndexOf(LoopModes, m);
    assert i >= 0 by { assert m == LoopModes[0] || m == LoopModes[1] || m == LoopModes[2]; }
    LoopModes[JsRem(i + 1, |LoopModes|)]
  }

  /** TrackManager.loadTrack: an index outside the playlist is ignored;
      otherwise it becomes current and its source is loaded. */
  function LoadTrackStep(s: Nav, index: int): (t: Transition)
    ensures t.outcome.Done?
  {
    if index < 0 || index >= s.count then Transition(s, Done([]))
    else Transition(s.(index := index), Done([Load(index)]))
  }

  /** The shuffle-order entry after the current track's position, cyclically. */
  function ShuffleNext(order: seq<int>, current: int): (r: int)
    requires |order| > 0
    ensures r in order
  {
    order[JsRem(IndexOf(order, current) + 1, |order|)]
  }

  /** The shuffle-order entry before the current track's position, cyclically. */
  function ShufflePrev(order: seq<int>, current: int): (r: int)
    requires |order| > 0
    ensures r in order
  {
    var p := JsRem(IndexOf(order, current) - 1 + |order|, |order|);
    assert 0 <= p < |order|;
    order[p]
  }

  /** The first half of TrackManager.nextTrack / prevTrack in shuffle mode
      with an empty order: the position is `x % 0`, i.e. NaN, the index read
      from the order is undefined, loadTrack's bounds test lets undefined
      through, and reading the undefined track's url throws. */
  predicate ShuffleOverEmptyOrder(s: Nav) {
    s.isShuffle && |s.order| == 0
  }

  /** TrackManager.nextTrack: at most the index changes, and when it does
      the new track is loaded and played. On a throw the model keeps the
      state, where the source has already stored `undefined` as the index. */
  function NextTrackStep(s: Nav): (t: Transition)
    ensures t.nav == s.(index := t.nav.index)
    ensures t.outcome.TypeError? ==> t.nav == s
    ensures t.nav.index != s.index ==>
      0 <= t.nav.index < s.count && t.outcome == Done([Load(t.nav.index)] + PlayEffects(s.count))
  {
    if s.loopMode == One then Transition(s, Done([SeekToZero] + PlayEffects(s.count)))
    else if ShuffleOverEmptyOrder(s) then Transition(s, TypeError)
    else
      var next := if s.isShuffle then ShuffleNext(s.order, s.index) else s.index + 1;
      if next >= s.count && s.loopMode != All then Transition(s, Done([Pause]))
      else
        var l := LoadTrackStep(s, if next >= s.count then 0 else next);
        Transition(l.nav, Done(l.outcome.effects + PlayEffects(s.count)))
  }

  /** TrackManager.prevTrack; `pastThreeSeconds` is `DOM.audio.currentTime > 3`.
      At most the index changes, and when it does the new track is loaded
      and played. On a throw the model keeps the state, where the source has
      already stored `undefined` as the index. */
  function PrevTrackStep(s: Nav, pastThreeSeconds: bool): (t: Transition)
    ensures t.nav == s.(index := t.nav.index)
    ensures pastThreeSeconds ==> t == Transition(s, Done([SeekToZero]))
    ensures t.outcome.TypeError? ==> t.nav == s
    ensures t.nav.index != s.index ==>
      0 <= t.nav.index < s.count && t.outcome == Done([Load(t.nav.index)] + PlayEffects(s.count))
  {
    if pastThreeSeconds then Transition(s, Done([SeekToZero]))
    else if ShuffleOverEmptyOrder(s) then Transition(s, TypeError)
    else
      var prev :=
        if s.isShuffle then ShufflePrev(s.order, s.index)
        else if s.index - 1 < 0 then (if s.loopMode == All then s.count - 1 else 0)
        else s.index - 1;
      var l := LoadTrackStep(s, prev);
      Transition(l.nav, Done(l.outcome.effects + PlayEffects(s.count)))
  }

  /** PlaybackControls.toggleShuffle: flips the flag and, when it turns on,
      draws a fresh order. */
  function ToggleShuffleStep(s: Nav, draws: seq<int>): (r: Nav)
    requires ValidDraws(draws, s.count)
    ensures r.isShuffle == !s.isShuffle
    ensures r == s.(isShuffle := r.isShuffle, order := r.order)
    ensures !r.isShuffle ==> r.order == s.order
    ensures r.isShuffle ==> |r.order| == s.count
  {
    if s.isShuffle then s.(isShuffle := false)
    else s.(isShuffle := true, order := FisherYates(s.count, draws))
  }

  /** TrackManager.loadFolder, navigation part: a non-empty folder of n
      tracks replaces the playlist, draws a fresh order and loads track 0;
      an empty one changes nothing. */
  function LoadFolderStep(s: Nav, n: nat, draws: seq<int>): (t: Transition)
    requires ValidDraws(draws, n)
    ensures n == 0 ==> t == Transition(s, Done([]))
    ensures n > 0 ==> t.nav.count == n && t.nav.index == 0 && |t.nav.order| == n
    ensures n > 0 ==> t.nav.loopMode == s.loopMode && t.nav.isShuffle == s.isShuffle
    ensures n > 0 ==> t.outcome == Done([Load(0)])
  {
    if n == 0 then Transition(s, Done([]))
    else LoadTrackStep(s.(count := n, index := 0, order := FisherYates(n, draws)), 0)
  }

  // ---------------------------------------------------------------------
  // Properties of the transitions
  // ---------------------------------------------------------------------

  /** toggleLoop cycles none -> all -> one -> none: never a fixed point, and
      three presses restore the mode. */
  lemma ToggleLoopCycles(m: LoopMode)
    ensures NextLoopMode(None) == All && NextLoopMode(All) == One && NextLoopMode(One) == None
    ensures NextLoopMode(m) != m
    ensures NextLoopMode(NextLoopMode(NextLoopMode(m))) == m
  {
  }

  /** loadTrack's bounds test: outside [0, count) nothing changes and nothing
      is loaded; inside, exactly the index changes. */
  lemma LoadTrackBounds(s: Nav, index: int)
    ensures index < 0 || index >= s.count ==> LoadTrackStep(s, index) == Transition(s, Done([]))
    ensures 0 <= index < s.count ==>
      LoadTrackStep(s, index).nav == s.(index := index) && LoadTrackStep(s, index).outcome == Done([Load(index)])
  {
  }

  /** Where no entry repeats, indexOf finds every entry at its own position. */
  lemma {:induction false} IndexOfDistinct(s: seq<int>, k: nat)
    requires k < |s|
    requires forall a, b :: 0 <= a < b < |s| ==> s[a] != s[b]
    ensures IndexOf(s, s[k]) == k
  {
    if s[0] != s[k] {
      assert s[1..][k - 1] == s[k];
      IndexOfDistinct(s[1..], k - 1);
    }
  }

  lemma IndexOfInPermutation(order: seq<int>, n: nat, k: nat)
    requires IsPermutation(order, n) && k < |order|
    ensures IndexOf(order, order[k]) == k
  {
    PermutationFacts(order, n);
    IndexOfDistinct(order, k);
  }

  /** In a valid shuffle state the neighbours in the order are tracks. */
  lemma ShuffleNeighboursAreTracks(s: Nav)
    requires s.Valid() && s.count > 0
    ensures |s.order| == s.count
    ensures 0 <= ShuffleNext(s.order, s.index) < s.count
    ensures 0 <= ShufflePrev(s.order, s.index) < s.count
  {
    PermutationFacts(s.order, s.count);
  }

  /** nextTrack outside shuffle mode: 'one' restarts the track; otherwise the
      next index, or past the end track 0 under 'all' and a pause under
      'none'. */
  lemma NextTrackInOrder(s: Nav)
    requires s.Valid() && !s.isShuffle && s.count > 0
    ensures s.loopMode == One ==> NextTrackStep(s) == Transition(s, Done([SeekToZero, Play]))
    ensures s.loopMode != One && s.index + 1 < s.count ==>
      NextTrackStep(s) == Transition(s.(index := s.index + 1), Done([Load(s.index + 1), Play]))
    ensures s.loopMode == All && s.index + 1 == s.count ==>
      NextTrackStep(s) == Transition(s.(index := 0), Done([Load(0), Play]))
    ensures s.loopMode == None && s.index + 1 == s.count ==>
      NextTrackStep(s) == Transition(s, Done([Pause]))
  {
    assert [SeekToZero] + [Play] == [SeekToZero, Play];
    assert [Load(0)] + [Play] == [Load(0), Play];
    assert [Load(s.index + 1)] + [Play] == [Load(s.index + 1), Play];
  }

  /** nextTrack in shuffle mode (and not 'one') always loads and plays the
      cyclic successor in the order: the end-of-list branch is never taken. */
  lemma NextTrackShuffled(s: Nav)
    requires s.Valid() && s.isShuffle && s.count > 0 && s.loopMode != One
    ensures var k := ShuffleNext(s.order, s.index);
      0 <= k < s.count && NextTrackStep(s) == Transition(s.(index := k), Done([Load(k), Play]))
  {
    ShuffleNeighboursAreTracks(s);
    var k := ShuffleNext(s.order, s.index);
    assert [Load(k)] + [Play] == [Load(k), Play];
  }

  /** prevTrack outside shuffle mode: past three seconds it only seeks to 0;
      otherwise the previous index, and at index 0 the last track under
      'all' and track 0 again under any other mode. */
  lemma PrevTrackInOrder(s: Nav)
    requires s.Valid() && !s.isShuffle && s.count > 0
    ensures PrevTrackStep(s, true) == Transition(s, Done([SeekToZero]))
    ensures s.index > 0 ==>
      PrevTrackStep(s, false) == Transition(s.(index := s.index - 1), Done([Load(s.index - 1), Play]))
    ensures s.index == 0 ==>
      var k := if s.loopMode == All then s.count - 1 else 0;
      PrevTrackStep(s, false) == Transition(s.(index := k), Done([Load(k), Play]))
  {
    var k := if s.loopMode == All then s.count - 1 else 0;
    assert [Load(k)] + [Play] == [Load(k), Play];
    if s.index > 0 {
      assert [Load(s.index - 1)] + [Play] == [Load(s.index - 1), Play];
    }
  }

  /** prevTrack in shuffle mode: past three seconds it only seeks to 0;
      otherwise it loads and plays the cyclic predecessor in the order,
      whatever the loop mode. */
  lemma PrevTrackShuffled(s: Nav)
    requires s.Valid() && s.isShuffle && s.count > 0
    ensures PrevTrackStep(s, true) == Transition(s, Done([SeekToZero]))
    ensures var k := ShufflePrev(s.order, s.index);
      0 <= k < s.count && PrevTrackStep(s, false) == Transition(s.(index := k), Done([Load(k), Play]))
  {
    ShuffleNeighboursAreTracks(s);
    var k := ShufflePrev(s.order, s.index);
    assert [Load(k)] + [Play] == [Load(k), Play];
  }

  /** The first way navigation throws: shuffle on while the playlist is
      empty. In a state reached without a prior throw it is the only way. */
  lemma TypeErrorOnlyWhenEmpty(s: Nav)
    requires s.Valid()
    ensures NextTrackStep(s).outcome == TypeError <==> s.isShuffle && s.count == 0 && s.loopMode != One
    ensures PrevTrackStep(s, false).outcome == TypeError <==> s.isShuffle && s.count == 0
  {
    PermutationFacts(s.order, s.count);
  }

  /** Every operation keeps the state valid. */
  lemma LoadTrackPreservesValid(s: Nav, index: int)
    requires s.Valid()
    ensures LoadTrackStep(s, index).nav.Valid()
  {
  }

  lemma NextTrackPreservesValid(s: Nav)
    requires s.Valid()
    ensures NextTrackStep(s).nav.Valid()
  {
    if s.count > 0 {
      ShuffleNeighboursAreTracks(s);
    }
  }

  lemma PrevTrackPreservesValid(s: Nav, pastThreeSeconds: bool)
    requires s.Valid()
    ensures PrevTrackStep(s, pastThreeSeconds).nav.Valid()
  {
    if s.count > 0 {
      ShuffleNeighboursAreTracks(s);
    }
  }

  lemma ToggleShufflePreservesValid(s: Nav, draws: seq<int>)
    requires s.Valid() && ValidDraws(draws, s.count)
    ensures ToggleShuffleStep(s, draws).Valid()
  {
    FisherYatesIsPermutation(s.count, draws);
  }

  lemma LoadFolderPreservesValid(s: Nav, n: nat, draws: seq<int>)
    requires s.Valid() && ValidDraws(draws, n)
    ensures LoadFolderStep(s, n, draws).nav.Valid()
    ensures n > 0 ==> LoadFolderStep(s, n, draws).nav.index == 0
  {
    FisherYatesIsPermutation(n, draws);
  }

  lemma JsRemBelowTwice(a: int, n: int)
    requires n > 0 && 0 <= a < 2 * n
    ensures JsRem(a, n) == if a < n then a else a - n
  {
    if a >= n {
      ModOnce(a, n);
    }
  }

  /** Between n and 2n, taking the remainder subtracts n once. */
  lemma ModOnce(a: int, n: int)
    requires 0 < n <= a < 2 * n
    ensures a % n == a - n
  {
    assert a == n * 1 + (a - n);
    assert a / n == 1;
  }

  /** Where no entry repeats, the successor of the entry at position k is
      the entry at position k + 1, wrapping to 0. */
  lemma ShuffleNextAt(order: seq<int>, k: nat)
    requires k < |order|
    requires forall a, b :: 0 <= a < b < |order| ==> order[a] != order[b]
    ensures ShuffleNext(order, order[k]) == order[if k + 1 < |order| then k + 1 else 0]
  {
    IndexOfDistinct(order, k);
    JsRemBelowTwice(k + 1, |order|);
  }

  /** ... and its predecessor the entry at position k - 1, wrapping to the end. */
  lemma ShufflePrevAt(order: seq<int>, k: nat)
    requires k < |order|
    requires forall a, b :: 0 <= a < b < |order| ==> order[a] != order[b]
    ensures ShufflePrev(order, order[k]) == order[if k == 0 then |order| - 1 else k - 1]
  {
    IndexOfDistinct(order, k);
    JsRemBelowTwice(k - 1 + |order|, |order|);
  }

  /** In shuffle mode prev undoes next ... */
  lemma ShufflePrevUndoesNext(s: Nav)
    requires s.Valid() && s.isShuffle && s.count > 0 && s.loopMode != One
    ensures PrevTrackStep(NextTrackStep(s).nav, false).nav == s
  {
    var n, order := s.count, s.order;
    PermutationFacts(order, n);
    var p := IndexOf(order, s.index);
    var k := if p + 1 < n then p + 1 else 0;
    ShuffleNextAt(order, p);
    NextTrackShuffled(s);
    var t := s.(index := order[k]);
    assert NextTrackStep(s).nav == t;
    ShufflePrevAt(order, k);
    PrevTrackShuffled(t);
    assert PrevTrackStep(t, false).nav == t.(index := order[p]);
  }

  /** ... and next undoes prev: the order is walked as a cycle, so stepping
      is a bijection on the tracks. */
  lemma ShuffleNextUndoesPrev(s: Nav)
    requires s.Valid() && s.isShuffle && s.count > 0 && s.loopMode != One
    ensures NextTrackStep(PrevTrackStep(s, false).nav).nav == s
  {
    var n, order := s.count, s.order;
    PermutationFacts(order, n);
    var p := IndexOf(order, s.index);
    var k := if p == 0 then n - 1 else p - 1;
    ShufflePrevAt(order, p);
    PrevTrackShuffled(s);
    var t := s.(index := order[k]);
    assert PrevTrackStep(s, false).nav == t;
    ShuffleNextAt(order, k);
    NextTrackShuffled(t);
    assert NextTrackStep(t).nav == t.(index := order[p]);
  }

  /** Outside shuffle mode prev undoes next whenever next actually moved
      (not past the end, or wrapping under 'all'). */
  lemma InOrderPrevUndoesNext(s: Nav)
    requires s.Valid() && !s.isShuffle && s.count > 0 && s.loopMode != One
    requires s.loopMode == All || s.index + 1 < s.count
    ensures PrevTrackStep(NextTrackStep(s).nav, false).nav == s
  {
  }

  // ---------------------------------------------------------------------
  // The shared state, updated in place
  // ---------------------------------------------------------------------

  /** The swap loop of generateShuffleOrder, run in place on `a`: for i
      from a.Length - 1 down to 1, exchange a[i] and a[draws[i]]. Every swap
      keeps the multiset of entries. */
  method SwapDown(a: array<int>, draws: seq<int>)
    requires ValidDraws(draws, a.Length)
    modifies a
    ensures a.Length > 0 ==> a[..] == ShuffleDown(old(a[..]), draws, a.Length - 1)
    ensures multiset(a[..]) == multiset(old(a[..]))
  {
    var n := a.Length;
    var i := n - 1;
    while i > 0
      invariant n == 0 ==> i == -1
      invariant n > 0 ==> 0 <= i < n
      invariant n > 0 ==> ShuffleDown(a[..], draws, i) == ShuffleDown(old(a[..]), draws, n - 1)
      invariant multiset(a[..]) == multiset(old(a[..]))
      decreases i
    {
      var j := draws[i];
      ghost var before := a[..];
      a[i], a[j] := a[j], a[i];
      assert a[..] == Swap(before, i, j);
      SwapPreservesElements(before, i, j);
      i := i - 1;
    }
  }

  /** A playlist entry; only the display name is modelled. */
  datatype Track = Track(name: string)

  /** The tracks loadFolder builds: one per file, in order, each named by
      cleanFileName. */
  function Playlist(fileNames: seq<string>): (r: seq<Track>)
    ensures |r| == |fileNames|
    ensures forall k :: 0 <= k < |r| ==> r[k].name == FileNames.CleanFileName(fileNames[k])
  {
    seq(|fileNames|, k requires 0 <= k < |fileNames| => Track(FileNames.CleanFileName(fileNames[k])))
  }

  class Player {
    var tracks: seq<Track>
    var currentIndex: int
    var loopMode: LoopMode
    var isShuffle: bool
    var shuffleOrder: seq<int>

    /** The navigation view of the fields. */
    function State(): Nav
      reads this
    {
      Nav(|tracks|, currentIndex, loopMode, isShuffle, shuffleOrder)
    }

    ghost predicate Valid()
      reads this
    {
      State().Valid()
    }

    /** The initial `State`: no tracks, index 0, loop off, shuffle off, empty order. */
    constructor ()
      ensures Valid()
      ensures State() == Nav(0, 0, None, false, []) && tracks == []
    {
      tracks := [];
      currentIndex := 0;
      loopMode := None;
      isShuffle := false;
      shuffleOrder := [];
    }

    /** TrackManager.loadTrack. */
    method LoadTrack(index: int) returns (effects: seq<Effect>)
      requires Valid()
      modifies this
      ensures Valid()
      ensures tracks == old(tracks) && shuffleOrder == old(shuffleOrder)
      ensures State() == LoadTrackStep(old(State()), index).nav
      ensures Done(effects) == LoadTrackStep(old(State()), index).outcome
    {
      LoadTrackPreservesValid(State(), index);
      if index < 0 || index >= |tracks| {
        return [];
      }
      currentIndex := index;
      effects := [Load(index)];
    }

    /** PlaybackControls.play. */
    method Play() returns (effects: seq<Effect>)
      ensures effects == PlayEffects(|tracks|)
    {
      if |tracks| == 0 {
        return [];
      }
      effects := [Effect.Play];
    }

    method NextTrack() returns (outcome: Outcome)
      requires Valid()
      modifies this
      ensures tracks == old(tracks) && shuffleOrder == old(shuffleOrder)
      ensures State() == NextTrackStep(old(State())).nav
      ensures outcome == NextTrackStep(old(State())).outcome
      ensures Valid()
    {
      ghost var s0 := State();
      if loopMode == One {
        var play := Play();
        outcome := Done([SeekToZero] + play);
      } else if isShuffle && |shuffleOrder| == 0 {
        outcome := TypeError;
      } else {
        var nextIndex: int;
        if isShuffle {
          var pos := IndexOf(shuffleOrder, currentIndex);
          var nextPos := JsRem(pos + 1, |shuffleOrder|);
          nextIndex := shuffleOrder[nextPos];
        } else {
          nextIndex := currentIndex + 1;
        }
        if nextIndex >= |tracks| && loopMode != All {
          outcome := Done([Pause]);
        } else {
          if nextIndex >= |tracks| {
            nextIndex := 0;
          }
          var loaded := LoadTrack(nextIndex);
          var play := Play();
          outcome := Done(loaded + play);
        }
      }
      assert State() == NextTrackStep(s0).nav;
      NextTrackPreservesValid(s0);
    }

    method PrevTrack(pastThreeSeconds: bool) returns (outcome: Outcome)
      requires Valid()
      modifies this
      ensures tracks == old(tracks) && shuffleOrder == old(shuffleOrder)
      ensures State() == PrevTrackStep(old(State()), pastThreeSeconds).nav
      ensures outcome == PrevTrackStep(old(State()), pastThreeSeconds).outcome
      ensures Valid()
    {
      ghost var s0 := State();
      if pastThreeSeconds {
        outcome := Done([SeekToZero]);
      } else if isShuffle && |shuffleOrder| == 0 {
        outcome := TypeError;
      } else {
        var prevIndex: int;
        if isShuffle {
          var pos := IndexOf(shuffleOrder, currentIndex);
          var prevPos := JsRem(pos - 1 + |shuffleOrder|, |shuffleOrder|);
          prevIndex := shuffleOrder[prevPos];
        } else {
          prevIndex := currentIndex - 1;
          if prevIndex < 0 {
            prevIndex := if loopMode == All then |tracks| - 1 else 0;
          }
        }
        var loaded := LoadTrack(prevIndex);
        var play := Play();
        outcome := Done(loaded + play);
      }
      assert State() == PrevTrackStep(s0, pastThreeSeconds).nav;
      PrevTrackPreservesValid(s0, pastThreeSeconds);
    }

    method ToggleLoop()
      requires Valid()
      modifies this
      ensures Valid()
      ensures State() == old(State()).(loopMode := NextLoopMode(old(loopMode)))
      ensures tracks == old(tracks) && shuffleOrder == old(shuffleOrder)
    {
      ghost var s0 := State();
      var currentIdx := IndexOf(LoopModes, loopMode);
      loopMode := LoopModes[JsRem(currentIdx + 1, |LoopModes|)];
      assert State() == s0.(loopMode := loopMode);
    }

    /** TrackManager.generateShuffleOrder: a fresh identity order of
        `tracks.length` entries, then the descending swap loop. */
    method GenerateShuffleOrder(draws: seq<int>)
      requires ValidDraws(draws, |tracks|)
      modifies this
      ensures tracks == old(tracks) && currentIndex == old(currentIndex)
      ensures loopMode == old(loopMode) && isShuffle == old(isShuffle)
      ensures shuffleOrder == FisherYates(|tracks|, draws)
      ensures IsPermutation(shuffleOrder, |tracks|)
      ensures State().IndexInRange() ==> Valid()
    {
      var a := new int[|tracks|](k => k);
      assert a[..] == Range(|tracks|);
      SwapDown(a, draws);
      shuffleOrder := a[..];
    }

    method ToggleShuffle(draws: seq<int>)
      requires Valid() && ValidDraws(draws, |tracks|)
      modifies this
      ensures Valid()
      ensures State() == ToggleShuffleStep(old(State()), draws)
      ensures tracks == old(tracks)
    {
      ToggleShufflePreservesValid(State(), draws);
      isShuffle := !isShuffle;
      if isShuffle {
        GenerateShuffleOrder(draws);
      }
    }

    /** TrackManager.loadFolder, given the audio files' names already
        filtered and sorted: each name is cleaned for display. */
    method LoadFolder(fileNames: seq<string>, draws: seq<int>) returns (effects: seq<Effect>)
      requires Valid() && ValidDraws(draws, |fileNames|)
      modifies this
      ensures Valid()
      ensures State() == LoadFolderStep(old(State()), |fileNames|, draws).nav
      ensures Done(effects) == LoadFolderStep(old(State()), |fileNames|, draws).outcome
      ensures |fileNames| == 0 ==> tracks == old(tracks)
      ensures |fileNames| > 0 ==> tracks == Playlist(fileNames)
    {
      ghost var s0 := State();
      LoadFolderPreservesValid(s0, |fileNames|, draws);
      if |fileNames| == 0 {
        return [];
      }
      ReplacePlaylist(fileNames, draws);
      effects := LoadTrack(0);
    }

    /** The middle of loadFolder: the new tracks, index 0, a fresh order. */
    method ReplacePlaylist(fileNames: seq<string>, draws: seq<int>)
      requires ValidDraws(draws, |fileNames|)
      modifies this
      ensures tracks == Playlist(fileNames) && currentIndex == 0
      ensures loopMode == old(loopMode) && isShuffle == old(isShuffle)
      ensures shuffleOrder == FisherYates(|fileNames|, draws)
      ensures Valid()
    {
      tracks := Playlist(fileNames);
      currentIndex := 0;
      GenerateShuffleOrder(draws);
    }
  }
}
