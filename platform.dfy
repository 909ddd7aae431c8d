/**
 * The platform-list helpers. The Go runtime constants GOARCH and GOOS are
 * passed in as parameters.
 */
module Platform {

  /** The legacy alias added for 64-bit x86, since `uname` is not available everywhere. */
  const LegacyAmd64Alias: string := "x86_64"

  /** The architecture names a binary may be published under on this host. */
  function GetArch(goarch: string): (r: seq<string>)
    ensures 1 <= |r| <= 2 && r[0] == goarch
    ensures |r| == 2 <==> goarch == "amd64"
    ensures |r| == 2 ==> r[1] == LegacyAmd64Alias
  {
    var res := [goarch];
    if goarch == "amd64" then res + [LegacyAmd64Alias] else res
  }

  /** The operating-system names a binary may be published under: just GOOS. */
  function GetOS(goos: string): (r: seq<string>)
    ensures forall name :: name in r <==> name == goos
    ensures |r| == 1
  {
    [goos]
  }
}
