# MapTileDownloader: a Dafny model of its bookkeeping

`MapTileDownloader` (Mapbox Android SDK) downloads map tiles over HTTP on worker
threads. This project models the part of it that is pure bookkeeping, as the
Java code does it:

- the **tile-source registry**: `setTileSource` keeps an online source and clears
  the registry for anything else (null included); the zoom getters delegate to
  the registered source or fall back to the provider's constants;
- the **early-exit ladder** of `TileLoader.loadTile`: no source, network check
  present and negative, empty URL, no input stream, a thrown exception — each
  returns null — and otherwise the decoded drawable;
- the **`threadControl` batch tracker**: every `loadTile` appends a `false` slot
  before anything else; only a decoded tile sets its own slot to `true` and then
  rescans the list; the rescan empties the list and reports true exactly when
  every slot is true, and then the tiles-loaded listener (if any) is called;
- the **`hdpi` flag** (density strictly above `DENSITY_XHIGH`, 320) and the
  `cache` field, which stays null because the constructor builds the cache
  into a local variable.

Modules: `Wrappers` (Option), `LoadLadder` (the ladder as a function over the
answers of the collaborators), `ThreadControl` (the list as a value: the rescan
loop, one step per event, runs of steps and lemmas about whole runs) and
`Downloader` (class `MapTileDownloader`, whose methods are atomic steps and whose
`Valid()` explains every false slot by a ghost set of loads in flight or of loads
that left the ladder early or failed, that is, any outcome but `Loaded`).

Concurrency is modelled as interleaving of atomic steps. A `loadTile` call is
either one step (`LoadTile`) or two (`BeginLoad` for everything up to the decode,
`FinishLoad` for marking the slot, the rescan and the listener), so interleaved
batches can be described. The network answer, the URL string, the transfer and
the decoder's result are inputs (`Attempt`). Four outbound calls are recorded,
in the order they are made, in the `notices` field: the tiles-loaded listener
(`onTilesLoaded`), the tile-loaded hook (`onTileLoaded`), `removeTileFromQueues`
and the request's callback (`mapTileRequestCompleted`).

The model follows the code as written: it keeps the list-and-rescan tracker (no
outstanding counter); the network check comes before the URL is built; the "no
content" exit is a null input stream; the response cache is never wired in.

## Model

| member | source | states |
|---|---|---|
| Downloader.IsHdpi | src/main/java/com/mapbox/mapboxsdk/tileprovider/modules/MapTileDownloader.java:45 | the density flag is set iff the density is strictly greater than `DENSITY_XHIGH` (320); exactly 320 is not hdpi |
| Downloader.MapTileDownloader.constructor | src/main/java/com/mapbox/mapboxsdk/tileprovider/modules/MapTileDownloader.java:39-55 | records the network check and the hdpi flag, registers the initial source as `setTileSource` would, starts with an empty list and leaves `cache` null |
| Downloader.MapTileDownloader.GetTileSource | src/main/java/com/mapbox/mapboxsdk/tileprovider/modules/MapTileDownloader.java:57-59 | returns the registered source and changes nothing |
| Downloader.MapTileDownloader.SetTileSource | src/main/java/com/mapbox/mapboxsdk/tileprovider/modules/MapTileDownloader.java:93-102 | after an online source, `GetTileSource` returns exactly that source; after null or any other kind of source it returns none; nothing else changes |
| Downloader.MapTileDownloader.GetMinimumZoomLevel | src/main/java/com/mapbox/mapboxsdk/tileprovider/modules/MapTileDownloader.java:81-85 | the registered source's minimum zoom, or `MINIMUM_ZOOMLEVEL` when none is registered; reads only |
| Downloader.MapTileDownloader.GetMaximumZoomLevel | src/main/java/com/mapbox/mapboxsdk/tileprovider/modules/MapTileDownloader.java:87-91 | the registered source's maximum zoom, or `MAXIMUM_ZOOMLEVEL` when none is registered; reads only |
| LoadLadder.Ladder | src/main/java/com/mapbox/mapboxsdk/tileprovider/modules/MapTileDownloader.java:110-171 | the exits in source order, each as an iff with the checks before it passed: no source; network check present and negative; null or empty URL; no input stream; otherwise loaded iff the transfer and the decode both succeed, with the decoder's drawable; a missing network check never skips |
| Downloader.MapTileDownloader.BeginLoad | src/main/java/com/mapbox/mapboxsdk/tileprovider/modules/MapTileDownloader.java:108-154 | appends exactly one false slot whatever happens next, returns the last index, runs the ladder on the registered source; a load that leaves the ladder early or fails (any outcome but `Loaded`) becomes a permanent owner of a false slot; a `Loaded` one records its decoded drawable |
| Downloader.MapTileDownloader.FinishLoad | src/main/java/com/mapbox/mapboxsdk/tileprovider/modules/MapTileDownloader.java:155-163 | the load's index is still in bounds; only its own slot becomes true before the rescan; it fires iff it was the last load in flight and no load ever left the ladder early or failed, and then the list is empty; the tiles-loaded listener is called iff it fired and a listener is registered, and after it the tile-loaded hook, if registered, is called with the drawable this load decoded and its answer becomes the result; otherwise the result is that decoded drawable |
| Downloader.MapTileDownloader.CheckThreadControl | src/main/java/com/mapbox/mapboxsdk/tileprovider/modules/MapTileDownloader.java:186-194 | reports true iff every slot is true (so also for an empty list); then the list is empty, otherwise unchanged |
| Downloader.MapTileDownloader.LoadTile | src/main/java/com/mapbox/mapboxsdk/tileprovider/modules/MapTileDownloader.java:107-172 | a whole call equals running `Begin` then, for a decoded tile only, `Complete(index)` on the list; every early exit returns null, leaves its appended slot false, fires nothing and calls nothing; a decoded load calls the listener, then the hook with its own drawable |
| Downloader.MapTileDownloader.TileLoaded | src/main/java/com/mapbox/mapboxsdk/tileprovider/modules/MapTileDownloader.java:174-178 | the tile is removed from the pending queues before the request's callback is called with the drawable |
| Downloader.LoadEvents | src/main/java/com/mapbox/mapboxsdk/tileprovider/modules/MapTileDownloader.java:108-155 | the list steps of one `loadTile` call: it always begins with appending a slot, and it completes that slot iff the load decoded its tile |
| ThreadControl.Scan | src/main/java/com/mapbox/mapboxsdk/tileprovider/modules/MapTileDownloader.java:187-191 | the `for` loop returns true iff no slot is false |
| ThreadControl.Check | src/main/java/com/mapbox/mapboxsdk/tileprovider/modules/MapTileDownloader.java:186-194 | fires iff all slots are true; a firing check empties the list, any other leaves it unchanged |
| ThreadControl.Step | src/main/java/com/mapbox/mapboxsdk/tileprovider/modules/MapTileDownloader.java:155-156 | `Begin` appends a false slot and never fires; completing index i fires iff i is in bounds and every other slot is already true, and a firing step empties the list; an out-of-bounds index changes nothing, as the caught exception would |
| ThreadControl.Run | src/main/java/com/mapbox/mapboxsdk/tileprovider/modules/MapTileDownloader.java:107-172 | a run of load steps reports one firing flag per step |
| ThreadControl.BeginsAppendPending | src/main/java/com/mapbox/mapboxsdk/tileprovider/modules/MapTileDownloader.java:108-109 | dispatching k loads appends k false slots and never fires |
| ThreadControl.LastCompletionFires | src/main/java/com/mapbox/mapboxsdk/tileprovider/modules/MapTileDownloader.java:155-161 | when the owners of all false slots complete one by one, only the last completion fires, and it leaves the list empty |
| ThreadControl.AbandonedSlotBlocks | src/main/java/com/mapbox/mapboxsdk/tileprovider/modules/MapTileDownloader.java:108-171 | a false slot whose load never completes stays false through any later steps, and no later step fires |
| ThreadControl.BatchFiresOnce | src/main/java/com/mapbox/mapboxsdk/tileprovider/modules/MapTileDownloader.java:108-161 | k loads dispatched together from an empty list and all decoded, in any order, fire exactly once, on the last completion, and leave the list empty |

## Left out

- HTTP transfer, OkHttp client set-up, `StreamUtils.copy` and the closing of streams in `finally`: network I/O; the transfer's result is the input `Transfer`.
- Image decoding by `getDrawable` and the tile-loaded hook `onTileLoaded`: outside collaborators; their results are inputs, and a hook that throws (which `loadTile` would catch after the slot is set) is not modelled.
- A tiles-loaded listener whose `onTilesLoaded` throws is not modelled: `loadTile` would catch it after its slot is set and the list is reset, skip the hook and return null; the model always lets the listener return.
- `getTileURLString` and `getNetworkAvailable` throwing: they run outside the `try`, so the exception would leave `loadTile`; the model treats both as always answering.
- `HttpResponseCache` construction and its temporary directory: file-system I/O whose result is discarded; the model records only that `cache` stays null, so the `setResponseCache` branch never runs.
- The worker pool, bounded queue and `removeTileFromQueues` of the base provider: the base class is not part of this model; `removeTileFromQueues` is a notice.
- Data races on the unsynchronised list: calls are atomic steps; a step may be a whole `loadTile` or its two halves around the decode.
- `MINIMUM_ZOOMLEVEL` and `MAXIMUM_ZOOMLEVEL`: declared in provider constants that are not part of this model, so they are constructor parameters.
- Logging, `getName`, `getThreadGroupName`, `getUsesDataConnection`, `getTileLoader`, `DisplayMetrics` and `TextUtils`: plumbing; density is an integer and `TextUtils.isEmpty` is `LoadLadder.IsEmpty`.
