/**
 * The default-path resolver: split PATH on ':' exactly as Go's
 * strings.Split does, stat each piece in order, and stop at the first
 * directory whose owner-write permission bit is set.
 *
 * `os.Stat` is an oracle from a path to the FileInfo it reports, or None
 * when the stat fails. The Go loop ignores the stat error and calls IsDir()
 * on the nil FileInfo it gets back, which panics: the scan reports that as
 * Crash rather than skipping the piece.
 */
module PathScan {
  import opened Wrappers

  /** The part of a Go FileInfo the scan looks at: its FileMode bits. */
  datatype FileInfo = FileInfo(mode: bv32)

  /** Go's os.ModeDir, the top bit of a FileMode. */
  const ModeDir: bv32 := 0x8000_0000
  /** Go's os.ModePerm, the Unix permission bits 0o777. */
  const ModePerm: bv32 := 0x1FF
  /** The bit tested by the scan, 1 << 7, which is 0o200: write permission for the owner. */
  const WriteBit: bv32 := 0x80

  type Stat = string -> Option<FileInfo>

  datatype ScanResult = Found(path: string) | NotFound | Crash

  /** The separator of PATH entries. */
  const PathSeparator: char := ':'

  // ---------------------------------------------------------------------
  // Splitting
  // ---------------------------------------------------------------------

  /**
   * Go's strings.Split(s, string(sep)): the empty string gives [""],
   * and adjacent or trailing separators give empty pieces.
   */
  function Split(s: string, sep: char): (r: seq<string>)
    ensures |r| >= 1
    ensures forall i :: 0 <= i < |r| ==> sep !in r[i]
    decreases |s|
  {
    if |s| == 0 then [""]
    else
      var rest := Split(s[1..], sep);
      if s[0] == sep then [""] + rest
      else [[s[0]] + rest[0]] + rest[1..]
  }

  /** Go's strings.Join(pieces, string(sep)) for a nonempty list: the partner of Split. */
  function Join(pieces: seq<string>, sep: char): string
    requires |pieces| >= 1
  {
    if |pieces| == 1 then pieces[0]
    else pieces[0] + [sep] + Join(pieces[1..], sep)
  }

  /** Splitting loses nothing: joining the pieces gives back the input. */
  lemma {:induction false} JoinSplit(s: string, sep: char)
    ensures Join(Split(s, sep), sep) == s
    decreases |s|
  {
    if |s| > 0 {
      var rest := Split(s[1..], sep);
      JoinSplit(s[1..], sep);
      if s[0] == sep {
        assert Split(s, sep) == [""] + rest;
        assert Split(s, sep)[1..] == rest;
      } else {
        var r := Split(s, sep);
        assert r == [[s[0]] + rest[0]] + rest[1..];
        if |rest| == 1 {
          assert Join(r, sep) == [s[0]] + rest[0];
        } else {
          assert r[1..] == rest[1..];
          assert Join(rest, sep) == rest[0] + [sep] + Join(rest[1..], sep);
          assert Join(r, sep) == ([s[0]] + rest[0]) + [sep] + Join(rest[1..], sep);
        }
      }
    }
  }

  /** A string without the separator is a single piece. */
  lemma {:induction false} SplitWithoutSeparator(a: string, sep: char)
    requires sep !in a
    ensures Split(a, sep) == [a]
    decreases |a|
  {
    if |a| > 0 {
      SplitWithoutSeparator(a[1..], sep);
      assert [a[0]] + a[1..] == a;
    }
  }

  /** A separator-free prefix followed by the separator is split off as the first piece. */
  lemma {:induction false} SplitAtFirstSeparator(a: string, sep: char, b: string)
    requires sep !in a
    ensures Split(a + [sep] + b, sep) == [a] + Split(b, sep)
    decreases |a|
  {
    var s := a + [sep] + b;
    if |a| == 0 {
      assert s[0] == sep && s[1..] == b;
    } else {
      assert s[1..] == a[1..] + [sep] + b;
      SplitAtFirstSeparator(a[1..], sep, b);
      assert [a[0]] + a[1..] == a;
    }
  }

  /** Joining separator-free pieces and splitting again gives back the pieces. */
  lemma {:induction false} SplitJoin(pieces: seq<string>, sep: char)
    requires |pieces| >= 1
    requires forall i :: 0 <= i < |pieces| ==> sep !in pieces[i]
    ensures Split(Join(pieces, sep), sep) == pieces
    decreases |pieces|
  {
    if |pieces| == 1 {
      SplitWithoutSeparator(pieces[0], sep);
    } else {
      SplitJoin(pieces[1..], sep);
      SplitAtFirstSeparator(pieces[0], sep, Join(pieces[1..], sep));
      assert [pieces[0]] + pieces[1..] == pieces;
    }
  }

  // ---------------------------------------------------------------------
  // The first-match scan
  // ---------------------------------------------------------------------

  /** FileMode.IsDir(). */
  predicate IsDir(fi: FileInfo) {
    fi.mode & ModeDir != 0
  }

  /** The test of the loop: a directory whose Perm() has bit 1 << 7 set. */
  predicate Qualifies(fi: FileInfo) {
    IsDir(fi) && (fi.mode & ModePerm) & WriteBit != 0
  }

  /** The stat of a piece succeeded and the piece does not qualify: the loop moves on. */
  predicate PassesOver(st: Option<FileInfo>) {
    st.Some? && !Qualifies(st.value)
  }

  /** The stat of a piece succeeded and it qualifies: the loop returns it. */
  predicate Hits(st: Option<FileInfo>) {
    st.Some? && Qualifies(st.value)
  }

  /** Every piece of `pieces` is passed over by the loop. */
  predicate AllPassOver(pieces: seq<string>, stat: Stat) {
    forall j :: 0 <= j < |pieces| ==> PassesOver(stat(pieces[j]))
  }

  /** The loop of getDefaultPath over the pieces, in order. */
  function Scan(pieces: seq<string>, stat: Stat): (r: ScanResult)
    ensures r.Found? ==> r.path in pieces && Hits(stat(r.path))
  {
    if |pieces| == 0 then NotFound
    else match stat(pieces[0])
      case None => Crash
      case Some(fi) => if Qualifies(fi) then Found(pieces[0]) else Scan(pieces[1..], stat)
  }

  /**
   * What Scan finds is the first stop of the loop: a found path is the first
   * qualifying piece, a crash is at the first failed stat, and NotFound
   * means every stat succeeded and no piece qualified.
   */
  lemma {:induction false} ScanIsFirstStop(pieces: seq<string>, stat: Stat)
    ensures Scan(pieces, stat).Found? ==>
      exists i :: 0 <= i < |pieces| && pieces[i] == Scan(pieces, stat).path
        && Hits(stat(pieces[i])) && AllPassOver(pieces[..i], stat)
    ensures Scan(pieces, stat).Crash? ==>
      exists i :: 0 <= i < |pieces| && stat(pieces[i]).None? && AllPassOver(pieces[..i], stat)
    ensures Scan(pieces, stat).NotFound? <==> AllPassOver(pieces, stat)
  {
    if |pieces| > 0 {
      var r := Scan(pieces, stat);
      if Hits(stat(pieces[0])) {
        assert pieces[..0] == [];
      } else if stat(pieces[0]).None? {
        assert pieces[..0] == [];
      } else {
        var tail := pieces[1..];
        ScanIsFirstStop(tail, stat);
        assert r == Scan(tail, stat);
        if r.Found? {
          var i :| 0 <= i < |tail| && tail[i] == r.path && Hits(stat(tail[i])) && AllPassOver(tail[..i], stat);
          assert pieces[..i + 1] == [pieces[0]] + tail[..i];
          assert pieces[i + 1] == r.path && Hits(stat(pieces[i + 1])) && AllPassOver(pieces[..i + 1], stat);
        } else if r.Crash? {
          var i :| 0 <= i < |tail| && stat(tail[i]).None? && AllPassOver(tail[..i], stat);
          assert pieces[..i + 1] == [pieces[0]] + tail[..i];
          assert stat(pieces[i + 1]).None? && AllPassOver(pieces[..i + 1], stat);
        } else {
          assert AllPassOver(tail, stat);
          assert pieces == [pieces[0]] + tail;
        }
        if AllPassOver(pieces, stat) {
          assert forall j :: 0 <= j < |tail| ==> tail[j] == pieces[j + 1];
        }
      }
    }
  }

  /**
   * The converse: when every piece before index i is passed over, the scan
   * stops at piece i if it hits or crashes there, and otherwise carries on
   * exactly as from piece i + 1.
   */
  lemma {:induction false} ScanReaches(pieces: seq<string>, stat: Stat, i: nat)
    requires i < |pieces|
    requires AllPassOver(pieces[..i], stat)
    ensures Hits(stat(pieces[i])) ==> Scan(pieces, stat) == Found(pieces[i])
    ensures stat(pieces[i]).None? ==> Scan(pieces, stat) == Crash
    ensures PassesOver(stat(pieces[i])) ==> Scan(pieces, stat) == Scan(pieces[i + 1..], stat)
    decreases i
  {
    if i > 0 {
      assert PassesOver(stat(pieces[..i][0]));
      var tail := pieces[1..];
      assert tail[..i - 1] == pieces[1..i];
      ScanReaches(tail, stat, i - 1);
      assert tail[i - 1] == pieces[i];
      assert tail[i..] == pieces[i + 1..];
    }
  }

  /** getDefaultPath: the scan over the pieces of the PATH value. */
  function DefaultPath(penv: string, stat: Stat): (r: ScanResult)
    ensures r.Found? ==> r.path in Split(penv, PathSeparator) && PathSeparator !in r.path
    ensures r.Found? ==> Hits(stat(r.path))
  {
    Scan(Split(penv, PathSeparator), stat)
  }

  /**
   * With PATH "/readonly:/writable", a read-only first directory and a
   * writable second one, the writable one is chosen.
   */
  lemma ReadonlyThenWritable(stat: Stat)
    requires stat("/readonly") == Some(FileInfo(ModeDir | 0x16D))  // dr-xr-xr-x, 0o555
    requires stat("/writable") == Some(FileInfo(ModeDir | 0x1ED))  // 0o755
    ensures DefaultPath("/readonly:/writable", stat) == Found("/writable")
  {
    var pieces := ["/readonly", "/writable"];
    assert Join(pieces, PathSeparator) == "/readonly:/writable";
    SplitJoin(pieces, PathSeparator);
    assert (ModeDir | 0x16D) & ModePerm & WriteBit == 0;
    assert pieces[1..] == ["/writable"];
  }

  /**
   * The world-write bit 0o002 never decides whether a file qualifies: flipping
   * it in any mode leaves the answer unchanged.
   */
  lemma WorldWriteBitIrrelevant(m: bv32)
    ensures Qualifies(FileInfo(m)) <==> Qualifies(FileInfo(m ^ 0x2))
  {
  }

  /** Among directories, the owner-write bit 0o200 alone decides. */
  lemma OwnerWriteBitDecides(m: bv32)
    requires m & ModeDir != 0
    ensures Qualifies(FileInfo(m)) <==> m & 0x80 != 0
  {
  }

  /** A world-writable directory without the owner-write bit does not qualify. */
  lemma WorldWritableAloneDoesNotQualify()
    ensures !Qualifies(FileInfo(ModeDir | 0x16F))  // 0o557
    ensures Qualifies(FileInfo(ModeDir | 0x80))    // 0o200
  {
  }
}
