/**
 * The config store: the process-wide record of managed binaries, keyed by
 * their install path, together with the default install directory.
 *
 * The package-global `cfg` of the Go code is an object of class Config.
 * The JSON file behind it is abstract: loading sees only the outcome of
 * decoding, and every call of `write()` appends the snapshot it encodes to
 * the ghost log `flushes` and reports the error the caller supplies.
 */
module Store {
  import opened Wrappers
  import opened PathScan

  /** One managed binary. Its `path` is the key under which the store holds it. */
  datatype Binary = Binary(path: string, remoteName: string, version: string, hash: string, url: string)

  /** The errors the store passes back unchanged from the file system and the JSON codec. */
  datatype Error = IoError(detail: string) | ParseError(detail: string)

  /** The value of the whole record: what `write()` encodes. */
  datatype Snapshot = Snapshot(defaultPath: string, bins: map<string, Binary>)

  /**
   * What decoding the config file did. `after` is the record as the
   * decoder left it; on end of file the decoder leaves the record alone.
   */
  datatype DecodeOutcome =
    | Decoded(after: Snapshot)
    | Eof
    | Malformed(after: Snapshot, err: Error)

  /** How CheckAndLoad ends: nil, an error, or the panic of the path scan. */
  datatype LoadStatus = Ok | Failed(err: Error) | Panicked

  datatype Loaded = Loaded(state: Snapshot, status: LoadStatus)

  // ---------------------------------------------------------------------
  // The registry as values
  // ---------------------------------------------------------------------

  /** The registry after `Bins[c.Path] = c`. */
  function Upserted(bins: map<string, Binary>, c: Binary): (r: map<string, Binary>)
    ensures c.path in r && r[c.path] == c
    ensures r.Keys == bins.Keys + {c.path}
    ensures forall k :: k in bins && k != c.path ==> r[k] == bins[k]
  {
    bins[c.path := c]
  }

  /** Upserting the same binary a second time changes nothing. */
  lemma UpsertIdempotent(bins: map<string, Binary>, c: Binary)
    ensures Upserted(Upserted(bins, c), c) == Upserted(bins, c)
  {
  }

  /**
   * Upserting under a key already present replaces the whole old entry and
   * keeps the number of entries.
   */
  lemma UpsertOverwrites(bins: map<string, Binary>, c: Binary)
    requires c.path in bins
    ensures Upserted(bins, c)[c.path] == c
    ensures |Upserted(bins, c)| == |bins|
  {
  }

  /** The registry after `delete(Bins, p)` for each p of `paths`, first to last. */
  function Removed(bins: map<string, Binary>, paths: seq<string>): (r: map<string, Binary>)
    ensures r.Keys == bins.Keys - set p | p in paths
    ensures forall k :: k in r ==> r[k] == bins[k]
    decreases |paths|
  {
    if |paths| == 0 then bins
    else
      var last := |paths| - 1;
      assert (set p | p in paths) == (set p | p in paths[..last]) + {paths[last]} by {
        assert paths == paths[..last] + [paths[last]];
      }
      Removed(bins, paths[..last]) - {paths[last]}
  }

  /** Removal depends only on which paths are named, not on their order or repetition. */
  lemma RemovedOrderIndependent(bins: map<string, Binary>, ps: seq<string>, qs: seq<string>)
    requires forall p :: p in ps <==> p in qs
    ensures Removed(bins, ps) == Removed(bins, qs)
  {
  }

  /** Paths that are not in the registry are ignored. */
  lemma RemovedIgnoresAbsent(bins: map<string, Binary>, paths: seq<string>)
    requires forall p :: p in paths ==> p !in bins
    ensures Removed(bins, paths) == bins
  {
  }

  // ---------------------------------------------------------------------
  // Loading as a transition on values
  // ---------------------------------------------------------------------

  /** The record once `Decode(&cfg)` has returned. */
  function AfterDecode(before: Snapshot, outcome: DecodeOutcome): Snapshot {
    match outcome
    case Decoded(after) => after
    case Eof => before
    case Malformed(after, _) => after
  }

  /** The string getDefaultPath returns when it does not panic. */
  function ScannedPath(found: ScanResult): string
    requires !found.Crash?
  {
    if found.Found? then found.path else ""
  }

  /**
   * CheckAndLoad from the record `before`: an open error returns at once;
   * otherwise the decoded record gets its default path back-filled when it
   * is empty (whatever the decode outcome), and only then is the decode
   * error returned, or, on end of file, the registry emptied.
   */
  function Load(before: Snapshot, openErr: Option<Error>, outcome: DecodeOutcome, penv: string, stat: Stat): (r: Loaded)
    ensures openErr.Some? ==> r == Loaded(before, Failed(openErr.value))
    ensures openErr.None? ==>
      var decoded := AfterDecode(before, outcome);
      && (r.status == Panicked <==> decoded.defaultPath == "" && DefaultPath(penv, stat).Crash?)
      && (r.status == Panicked ==> r.state == decoded)
      && (r.status != Panicked ==>
            && r.state.defaultPath == (if decoded.defaultPath == "" then ScannedPath(DefaultPath(penv, stat)) else decoded.defaultPath)
            && r.state.bins == (if outcome.Eof? then map[] else decoded.bins)
            && r.status == (if outcome.Malformed? then Failed(outcome.err) else Ok))
  {
    if openErr.Some? then Loaded(before, Failed(openErr.value))
    else
      var decoded := AfterDecode(before, outcome);
      var found := DefaultPath(penv, stat);
      if decoded.defaultPath == "" && found.Crash? then Loaded(decoded, Panicked)
      else
        var path := if decoded.defaultPath == "" then ScannedPath(found) else decoded.defaultPath;
        match outcome
        case Decoded(_) => Loaded(decoded.(defaultPath := path), Ok)
        case Eof => Loaded(Snapshot(path, map[]), Ok)
        case Malformed(_, e) => Loaded(decoded.(defaultPath := path), Failed(e))
  }

  /**
   * The first run: a freshly created, empty file on a fresh record yields an
   * empty registry and the first qualifying directory of PATH, provided every
   * earlier piece of PATH stats successfully.
   */
  lemma FirstRun(penv: string, stat: Stat, i: nat)
    requires i < |Split(penv, PathSeparator)|
    requires Hits(stat(Split(penv, PathSeparator)[i]))
    requires AllPassOver(Split(penv, PathSeparator)[..i], stat)
    ensures Load(Snapshot("", map[]), None, Eof, penv, stat) == Loaded(Snapshot(Split(penv, PathSeparator)[i], map[]), Ok)
  {
    ScanReaches(Split(penv, PathSeparator), stat, i);
  }

  // ---------------------------------------------------------------------
  // The process-wide record
  // ---------------------------------------------------------------------

  class Config {
    var defaultPath: string
    var bins: map<string, Binary>
    /** Every record `write()` was called to encode, oldest first, whether or not the open or the encoding succeeded. */
    ghost var flushes: seq<Snapshot>

    /** The zero value of the Go record: no default path and no binaries. */
    constructor ()
      ensures defaultPath == "" && bins == map[] && flushes == []
    {
      defaultPath, bins := "", map[];
      flushes := [];
    }

    function Snap(): Snapshot
      reads this
    {
      Snapshot(defaultPath, bins)
    }

    /**
     * Loads the record. `openErr` is the outcome of opening the file,
     * `outcome` that of decoding it, `penv` the PATH value and `stat` the
     * file system's answer to os.Stat.
     */
    method CheckAndLoad(openErr: Option<Error>, outcome: DecodeOutcome, penv: string, stat: Stat)
      returns (status: LoadStatus)
      modifies this`defaultPath, this`bins
      ensures Loaded(Snap(), status) == Load(old(Snap()), openErr, outcome, penv, stat)
    {
      if openErr.Some? {
        return Failed(openErr.value);
      }
      match outcome {
        case Decoded(after) =>
          defaultPath, bins := after.defaultPath, after.bins;
        case Eof =>
        case Malformed(after, _) =>
          defaultPath, bins := after.defaultPath, after.bins;
      }
      if |defaultPath| == 0 {
        var found := DefaultPath(penv, stat);
        match found {
          case Crash =>
            return Panicked;
          case NotFound =>
            defaultPath := "";
          case Found(p) =>
            defaultPath := p;
        }
      }
      if outcome.Malformed? {
        return Failed(outcome.err);
      } else if outcome.Eof? {
        bins := map[];
      }
      return Ok;
    }

    /** `write()`: encodes the whole record once; `writeErr` is what opening or encoding reported. */
    method Write(writeErr: Option<Error>) returns (err: Option<Error>)
      modifies this`flushes
      ensures flushes == old(flushes) + [Snap()]
      ensures err == writeErr
    {
      flushes := flushes + [Snap()];
      err := writeErr;
    }

    /**
     * Adds or replaces `c` under its path and then writes once, returning the
     * write error with the change kept. A nil binary changes nothing and
     * writes nothing.
     */
    method UpsertBinary(c: Option<Binary>, writeErr: Option<Error>) returns (err: Option<Error>)
      modifies this`bins, this`flushes
      ensures defaultPath == old(defaultPath)
      ensures c.None? ==> bins == old(bins) && flushes == old(flushes) && err == None
      ensures c.Some? ==> bins == Upserted(old(bins), c.value)
      ensures c.Some? ==> flushes == old(flushes) + [Snap()] && err == writeErr
    {
      err := None;
      if c.Some? {
        bins := bins[c.value.path := c.value];
        err := Write(writeErr);
      }
    }

    /**
     * Deletes every named path (absent ones are ignored) and then writes
     * exactly once, even for an empty list.
     */
    method RemoveBinaries(paths: seq<string>, writeErr: Option<Error>) returns (err: Option<Error>)
      modifies this`bins, this`flushes
      ensures defaultPath == old(defaultPath)
      ensures bins == Removed(old(bins), paths)
      ensures flushes == old(flushes) + [Snap()] && err == writeErr
    {
      for i := 0 to |paths|
        invariant bins == Removed(old(bins), paths[..i])
        invariant flushes == old(flushes)
      {
        assert paths[..i + 1][..i] == paths[..i];
        bins := bins - {paths[i]};
      }
      assert paths[..|paths|] == paths;
      err := Write(writeErr);
    }
  }
}
