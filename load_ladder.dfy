/** The early-exit ladder of `TileLoader.loadTile`: which way a single load
    leaves, given what the environment answered at each check. The network
    answer, the URL built by the tile source, the HTTP transfer and the image
    decoder are outside collaborators; here they are plain inputs. */
module LoadLadder {
  import opened Wrappers

  /** An opaque handle on a decoded tile image. */
  datatype Drawable = Drawable(id: nat)

  /** How opening the connection and copying its body went:
      `Streamed` - an input stream was returned and copied to memory;
      `NoStream` - `getInputStream` gave null ("no content");
      `TransferFails` - opening or copying threw. */
  datatype Transfer = Streamed | NoStream | TransferFails

  /** What the tile source's decoder did with the bytes: it returned a
      (possibly null) drawable, or it threw. */
  datatype Decode = Decoded(drawable: Option<Drawable>) | DecodeFails

  /** The answers one load gets from its collaborators, in the order it asks. */
  datatype Attempt = Attempt(
    networkAvailable: bool,   // what the network check reports, if one is configured
    url: Option<string>,      // the tile URL; None for a null string
    transfer: Transfer,
    decode: Decode)

  /** The way a load ends. Every case but `Loaded` makes `loadTile` return null. */
  datatype Outcome =
    | NoSource        // no online tile source is registered
    | NoNetwork       // a network check is configured and reports no network
    | EmptyUrl        // the URL is null or empty
    | NoContent       // the connection gave no input stream
    | Failed          // opening, copying or decoding threw
    | Loaded(drawable: Option<Drawable>)

  /** `TextUtils.isEmpty`: a null or zero-length string. */
  predicate IsEmpty(url: Option<string>) {
    url.None? || |url.value| == 0
  }

  /** The checks of `loadTile` in source order: source, network check, URL,
      transfer, decode. Each case says which earlier checks it has passed. */
  function Ladder(hasSource: bool, hasNetworkCheck: bool, a: Attempt): (o: Outcome)
    ensures o == NoSource <==> !hasSource
    ensures o == NoNetwork <==> hasSource && hasNetworkCheck && !a.networkAvailable
    ensures o == EmptyUrl <==>
      hasSource && (!hasNetworkCheck || a.networkAvailable) && IsEmpty(a.url)
    ensures o == NoContent <==>
      hasSource && (!hasNetworkCheck || a.networkAvailable) && !IsEmpty(a.url)
      && a.transfer == NoStream
    ensures o.Loaded? <==>
      hasSource && (!hasNetworkCheck || a.networkAvailable) && !IsEmpty(a.url)
      && a.transfer == Streamed && a.decode.Decoded?
    ensures o.Loaded? ==> o.drawable == a.decode.drawable
    ensures !hasNetworkCheck ==> o != NoNetwork
  {
    if !hasSource then NoSource
    else if hasNetworkCheck && !a.networkAvailable then NoNetwork
    else if IsEmpty(a.url) then EmptyUrl
    else match a.transfer
      case TransferFails => Failed
      case NoStream => NoContent
      case Streamed =>
        match a.decode
        case DecodeFails => Failed
        case Decoded(d) => Loaded(d)
  }
}
