/** The version oracle: `WinVer` and its write-once `version[3]` cache, and the
    classifier predicates as the source computes them, one cached read at a time. */
module VersionCache {
  import opened Versions

  /** The static `version[3]` cache of `WinVer`, filled by one native query.
      `os` is what that query reports; `queries` counts the queries made. */
  class VersionOracle {
    const os: OsVersion
    const version: array<Dword>
    ghost var queries: nat

    /** Either nothing has been cached yet, or the cache holds the reported triple.
        When the reported major version is non-zero the query ran at most once. */
    ghost predicate Valid()
      reads this, version
    {
      version.Length == 3 &&
      ((version[..] == [0, 0, 0] && queries == 0) ||
       (version[..] == Triple(os) && queries >= 1 && (os.major != 0 ==> queries == 1)))
    }

    constructor (os: OsVersion)
      ensures Valid() && fresh(version)
      ensures this.os == os && version[..] == [0, 0, 0] && queries == 0
    {
      this.os := os;
      version := new Dword[3](_ => 0);
      queries := 0;
    }

    /** Component `index` of the version triple; 0 for an index past the triple.
        A query happens only while `version[0]` is 0; afterwards the cache answers. */
    method WinVer(index: nat) returns (r: Dword)
      requires Valid()
      modifies this, version
      ensures Valid()
      ensures r == if index < 3 then Triple(os)[index] else 0
      ensures index < 3 ==> version[..] == Triple(os)
      ensures index >= 3 || old(version[0]) != 0 ==>
        queries == old(queries) && version[..] == old(version[..])
      ensures index < 3 && old(version[0]) == 0 ==>
        queries == old(queries) + 1 && version[..] == Triple(os)
    {
      if index >= 3 {
        return 0;
      }
      if version[0] != 0 {
        return version[index];
      }
      version[0] := os.major;
      version[1] := os.minor;
      version[2] := os.build;
      queries := queries + 1;
      return version[index];
    }

    method IsWin7Plus() returns (b: bool)
      requires Valid()
      modifies this, version
      ensures Valid() && b == Versions.IsWin7Plus(os)
      ensures version[..] == Triple(os)
    {
      var major := WinVer(0);
      if major > 6 {
        return true;
      }
      var minor := WinVer(1);
      if minor != 6 {
        return false;
      }
      var again := WinVer(1);
      b := again == 1;
    }

    method IsWin10_20H1() returns (b: bool)
      requires Valid()
      modifies this, version
      ensures Valid() && b == Versions.IsWin10_20H1(os)
      ensures version[..] == Triple(os)
    {
      var build := WinVer(2);
      if build < 19041 {
        return false;
      }
      var again := WinVer(2);
      b := again < 22000;
    }

    method IsWin10_1809() returns (b: bool)
      requires Valid()
      modifies this, version
      ensures Valid() && b == Versions.IsWin10_1809(os)
      ensures version[..] == Triple(os)
    {
      var build := WinVer(2);
      if build < 17763 {
        return false;
      }
      var again := WinVer(2);
      b := again < 22000;
    }

    method IsWin11() returns (b: bool)
      requires Valid()
      modifies this, version
      ensures Valid() && b == Versions.IsWin11(os)
      ensures version[..] == Triple(os)
    {
      var build := WinVer(2);
      b := build >= 22000;
    }

    method IsWin11_22H2() returns (b: bool)
      requires Valid()
      modifies this, version
      ensures Valid() && b == Versions.IsWin11_22H2(os)
      ensures version[..] == Triple(os)
    {
      var build := WinVer(2);
      b := build >= 22621;
    }
  }
}
