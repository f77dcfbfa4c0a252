/** `MapTileDownloader`: the tile-source registry, the density flag and the
    `threadControl` batch-completion tracker, as a class whose methods are the
    atomic steps of its Java methods. Calls into the map view (the
    tiles-loaded listener, the request callback, the queue bookkeeping of the
    base provider) are recorded in the `notices` log, in the order they are made. */
module Downloader {
  import opened Wrappers
  import opened LoadLadder
  import opened ThreadControl

  /** `DisplayMetrics.DENSITY_XHIGH` of the Android platform. */
  const DENSITY_XHIGH: int := 320

  /** The `hdpi` flag: a screen strictly denser than extra-high. */
  function IsHdpi(densityDpi: int): (hdpi: bool)
    ensures hdpi <==> densityDpi > DENSITY_XHIGH
  {
    densityDpi > DENSITY_XHIGH
  }

  /** An `OnlineTileSourceBase`: the only kind of source the downloader keeps. */
  datatype OnlineTileSource = OnlineTileSource(name: string, minimumZoom: int, maximumZoom: int)

  /** The argument of `setTileSource`: null, an online source, or any other kind. */
  datatype TileSourceArg = NullSource | Online(source: OnlineTileSource) | OtherSource(name: string)

  /** An `HttpResponseCache` over a directory with a maximum size in bytes. */
  datatype ResponseCache = ResponseCache(directory: string, maxSize: int)

  datatype MapTile = MapTile(zoom: int, x: int, y: int)

  /** The outbound calls the downloader makes. */
  datatype Notice =
    | TilesLoaded                                     // TilesLoadedListener.onTilesLoaded
    | RemovedFromQueues(tile: MapTile)                // removeTileFromQueues
    | RequestCompleted(tile: MapTile, drawable: Option<Drawable>)  // mapTileRequestCompleted
    | TileLoadedHookCalled(drawable: Option<Drawable>)  // TileLoadedListener.onTileLoaded

  /** The steps a whole `loadTile` call takes on the list: it always appends
      its slot, and only a decoded tile completes it. */
  function LoadEvents(o: Outcome, index: nat): (es: seq<Event>)
    ensures |es| >= 1 && es[0] == Begin
    ensures |es| == 2 <==> o.Loaded?
    ensures o.Loaded? ==> es[1] == Complete(index)
  {
    if o.Loaded? then [Begin, Complete(index)] else [Begin]
  }

  class MapTileDownloader {
    var tileSource: Option<OnlineTileSource>
    const hasNetworkCheck: bool
    const hdpi: bool
    /** `MINIMUM_ZOOMLEVEL` and `MAXIMUM_ZOOMLEVEL` of the provider constants. */
    const minimumZoomFallback: int
    const maximumZoomFallback: int
    var cache: Option<ResponseCache>
    var threadControl: seq<bool>
    var notices: seq<Notice>
    /** Indices of loads that passed every check of the ladder and have not
        yet marked their slot. */
    ghost var inFlight: set<nat>
    /** Indices of loads that left the ladder early or failed (any outcome
        but `Loaded`): their slots stay false. */
    ghost var abandoned: set<nat>
    /** The drawable each load in flight got from the decoder. */
    ghost var decoded: map<nat, Option<Drawable>>

    /** Every false slot belongs to a load in flight or to an abandoned one;
        a non-empty list always holds a false slot, because the rescan empties
        an all-true list; `cache` is never assigned. */
    ghost predicate Valid()
      reads this
    {
      cache == None
      && inFlight !! abandoned
      && decoded.Keys == inFlight
      && (forall i :: i in inFlight ==> i < |threadControl|)
      && (forall i :: i in abandoned ==> i < |threadControl|)
      && (forall i :: 0 <= i < |threadControl| ==>
            (!threadControl[i] <==> i in inFlight || i in abandoned))
      && (threadControl == [] || !AllDone(threadControl))
    }

    /** The cache the constructor builds goes into a local variable and is
        dropped, so the `cache` field stays null. */
    constructor (initial: TileSourceArg, hasNetworkCheck: bool, densityDpi: int,
                 minimumZoomFallback: int, maximumZoomFallback: int)
      ensures Valid()
      ensures this.hasNetworkCheck == hasNetworkCheck && hdpi == IsHdpi(densityDpi)
      ensures this.minimumZoomFallback == minimumZoomFallback
      ensures this.maximumZoomFallback == maximumZoomFallback
      ensures GetTileSource() == if initial.Online? then Some(initial.source) else None
      ensures cache == None
      ensures threadControl == [] && notices == [] && inFlight == {} && abandoned == {}
      ensures decoded == map[]
    {
      this.hasNetworkCheck := hasNetworkCheck;
      this.hdpi := IsHdpi(densityDpi);
      this.minimumZoomFallback := minimumZoomFallback;
      this.maximumZoomFallback := maximumZoomFallback;
      tileSource := None;
      cache := None;
      threadControl := [];
      notices := [];
      inFlight := {};
      abandoned := {};
      decoded := map[];
      new;
      SetTileSource(initial);
    }

    function GetTileSource(): (r: Option<OnlineTileSource>)
      reads this
      ensures r == tileSource
    {
      tileSource
    }

    /** Delegates to the registered source, else the provider's minimum. */
    function GetMinimumZoomLevel(): (z: int)
      reads this
      ensures tileSource.Some? ==> z == tileSource.value.minimumZoom
      ensures tileSource.None? ==> z == minimumZoomFallback
    {
      match tileSource
      case Some(s) => s.minimumZoom
      case None => minimumZoomFallback
    }

    /** Delegates to the registered source, else the provider's maximum. */
    function GetMaximumZoomLevel(): (z: int)
      reads this
      ensures tileSource.Some? ==> z == tileSource.value.maximumZoom
      ensures tileSource.None? ==> z == maximumZoomFallback
    {
      match tileSource
      case Some(s) => s.maximumZoom
      case None => maximumZoomFallback
    }

    /** Keeps an online source; anything else, null included, clears the
        registry and so shuts the downloader down. */
    method SetTileSource(src: TileSourceArg)
      modifies this`tileSource
      ensures src.Online? ==> GetTileSource() == Some(src.source)
      ensures !src.Online? ==> GetTileSource() == None
    {
      if src.Online? {
        tileSource := Some(src.source);
      } else {
        tileSource := None;
      }
    }

    /** `loadTile` up to and including the decode: append a false slot, take
        its index, then run the ladder against the registered source. */
    method BeginLoad(a: Attempt) returns (index: nat, outcome: Outcome)
      requires Valid()
      modifies this`threadControl, this`inFlight, this`abandoned, this`decoded
      ensures Valid()
      ensures threadControl == Step(old(threadControl), Begin).slots
      ensures index == |old(threadControl)| == |threadControl| - 1
      ensures outcome == Ladder(tileSource.Some?, hasNetworkCheck, a)
      ensures outcome.Loaded? ==> inFlight == old(inFlight) + {index} && abandoned == old(abandoned)
      ensures outcome.Loaded? ==> decoded == old(decoded)[index := outcome.drawable]
      ensures !outcome.Loaded? ==> inFlight == old(inFlight) && abandoned == old(abandoned) + {index}
      ensures !outcome.Loaded? ==> decoded == old(decoded)
    {
      threadControl := threadControl + [false];
      index := |threadControl| - 1;
      var source := tileSource;
      outcome := Ladder(source.Some?, hasNetworkCheck, a);
      if outcome.Loaded? {
        inFlight := inFlight + {index};
        decoded := decoded[index := outcome.drawable];
      } else {
        abandoned := abandoned + {index};
      }
    }

    /** The rest of a decoded load: mark its own slot, rescan, notify the
        tiles-loaded listener if the rescan reported true and a listener is
        registered, then pass the drawable this load decoded through the
        tile-loaded hook if one is registered. */
    method FinishLoad(index: nat, drawable: Option<Drawable>, hasTilesLoadedListener: bool,
                      tileLoadedHook: Option<Option<Drawable>>)
      returns (result: Option<Drawable>, fired: bool)
      requires Valid() && index in inFlight && drawable == decoded[index]
      modifies this`threadControl, this`inFlight, this`decoded, this`notices
      ensures Valid()
      ensures index < |old(threadControl)|
      ensures Step(old(threadControl), Complete(index)) == StepResult(threadControl, fired)
      ensures fired <==> old(inFlight) == {index} && old(abandoned) == {}
      ensures inFlight == old(inFlight) - {index}
      ensures decoded == old(decoded) - {index}
      ensures notices == old(notices)
        + (if fired && hasTilesLoadedListener then [TilesLoaded] else [])
        + (if tileLoadedHook.Some? then [TileLoadedHookCalled(old(decoded)[index])] else [])
      ensures result == if tileLoadedHook.Some? then tileLoadedHook.value else old(decoded)[index]
    {
      ghost var before := threadControl;
      threadControl := threadControl[index := true];
      fired := CheckThreadControl();
      if fired && hasTilesLoadedListener {
        notices := notices + [TilesLoaded];
      }
      if tileLoadedHook.Some? {
        notices := notices + [TileLoadedHookCalled(drawable)];
        result := tileLoadedHook.value;
      } else {
        result := drawable;
      }
      inFlight := inFlight - {index};
      decoded := decoded - {index};
      if fired {
        forall j | 0 <= j < |before| && j != index
          ensures before[j]
        {
          assert before[index := true][j];
        }
      } else {
        assert !AllDone(before[index := true]);
        ghost var j :| 0 <= j < |before| && !before[index := true][j];
        assert j in inFlight || j in abandoned;
      }
    }

    /** Reports true exactly when every slot is true, and only then replaces
        the list with an empty one. */
    method CheckThreadControl() returns (allDone: bool)
      modifies this`threadControl
      ensures allDone <==> AllDone(old(threadControl))
      ensures Check(old(threadControl)) == StepResult(threadControl, allDone)
    {
      allDone := Scan(threadControl);
      if allDone {
        threadControl := [];
      }
    }

    /** A whole `loadTile` call as one atomic step. */
    method LoadTile(a: Attempt, hasTilesLoadedListener: bool, tileLoadedHook: Option<Option<Drawable>>)
      returns (result: Option<Drawable>, fired: bool)
      requires Valid()
      modifies this`threadControl, this`inFlight, this`abandoned, this`decoded, this`notices
      ensures Valid() && inFlight == old(inFlight) && decoded == old(decoded)
      ensures var o := Ladder(tileSource.Some?, hasNetworkCheck, a);
              var t := Run(old(threadControl), LoadEvents(o, |old(threadControl)|));
              threadControl == t.final && fired == (o.Loaded? && t.fired[1])
      ensures var o := Ladder(tileSource.Some?, hasNetworkCheck, a);
              !o.Loaded? ==>
                result == None && !fired && notices == old(notices)
                && threadControl == old(threadControl) + [false]
                && abandoned == old(abandoned) + {|old(threadControl)|}
      ensures var o := Ladder(tileSource.Some?, hasNetworkCheck, a);
              o.Loaded? ==>
                result == (if tileLoadedHook.Some? then tileLoadedHook.value else o.drawable)
                && abandoned == old(abandoned)
                && (fired <==> old(inFlight) == {} && old(abandoned) == {})
      ensures var o := Ladder(tileSource.Some?, hasNetworkCheck, a);
              notices == old(notices)
                + (if fired && hasTilesLoadedListener then [TilesLoaded] else [])
                + (if o.Loaded? && tileLoadedHook.Some? then [TileLoadedHookCalled(o.drawable)] else [])
    {
      ghost var start := threadControl;
      var index, outcome := BeginLoad(a);
      ghost var begun := threadControl;
      ghost var events := LoadEvents(outcome, index);
      if outcome.Loaded? {
        result, fired := FinishLoad(index, outcome.drawable, hasTilesLoadedListener, tileLoadedHook);
        assert events[1..] == [Complete(index)];
        assert [Complete(index)][1..] == [];
        assert Run(begun, [Complete(index)]) == Trace(threadControl, [fired]);
      } else {
        result, fired := None, false;
        assert events[1..] == [];
      }
      assert Run(start, events) == Trace(Run(begun, events[1..]).final, [false] + Run(begun, events[1..]).fired);
    }

    /** `TileLoader.tileLoaded`: the request leaves the pending queues before
        its callback runs. */
    method TileLoaded(tile: MapTile, drawable: Option<Drawable>)
      modifies this`notices
      ensures notices == old(notices) + [RemovedFromQueues(tile), RequestCompleted(tile, drawable)]
    {
      notices := notices + [RemovedFromQueues(tile), RequestCompleted(tile, drawable)];
    }
  }
}
