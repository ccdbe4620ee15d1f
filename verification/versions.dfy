/** The capability classifier: the OS version triple and the predicates every
    strategy is gated on, as pure functions of the triple. */
module Versions {

  /** A Windows DWORD. */
  type Dword = x: nat | x < 0x1_0000_0000

  /** What the native version query reports. */
  datatype OsVersion = OsVersion(major: Dword, minor: Dword, build: Dword)

  /** The three components in the order the cache stores them. */
  function Triple(v: OsVersion): seq<Dword> {
    [v.major, v.minor, v.build]
  }

  // ----- capability classifier, as written: each reads components of the triple -----

  /** The second disjunct compares the minor version with 6 and with 1 at once. */
  predicate IsWin7Plus(v: OsVersion) {
    v.major > 6 || (v.minor == 6 && v.minor == 1)
  }

  predicate IsWin10_20H1(v: OsVersion) {
    v.build >= 19041 && v.build < 22000
  }

  predicate IsWin10_1809(v: OsVersion) {
    v.build >= 17763 && v.build < 22000
  }

  predicate IsWin11(v: OsVersion) {
    v.build >= 22000
  }

  predicate IsWin11_22H2(v: OsVersion) {
    v.build >= 22621
  }

  /** How the classifier's tiers relate. */
  lemma ClassifierFacts(v: OsVersion)
    ensures IsWin7Plus(v) <==> v.major > 6
    ensures IsWin11_22H2(v) ==> IsWin11(v)
    ensures IsWin10_20H1(v) ==> IsWin10_1809(v)
    ensures !(IsWin11(v) && IsWin10_1809(v))
    ensures !(IsWin11(v) && IsWin10_20H1(v))
  {
  }

  // ----- the Windows 7 test as evidently intended -----

  /** Windows 7 is version 6.1: from there on, by major and then minor version. */
  predicate IsWin7PlusIntended(v: OsVersion) {
    v.major > 6 || (v.major == 6 && v.minor >= 1)
  }

  /** The test as written and the intended test disagree exactly on the 6.x
      releases from Windows 7 on, and there the written one says no. */
  lemma Win7PlusDiscrepancy(v: OsVersion)
    ensures IsWin7Plus(v) != IsWin7PlusIntended(v) <==> v.major == 6 && v.minor >= 1
    ensures IsWin7Plus(v) ==> IsWin7PlusIntended(v)
  {
  }

  /** Windows 7 SP1 (6.1.7601) is refused by the written test. */
  lemma Windows7Refused()
    ensures !IsWin7Plus(OsVersion(6, 1, 7601)) && IsWin7PlusIntended(OsVersion(6, 1, 7601))
  {
  }

  /** The intended test admits Windows 7, 8, 8.1 and 10 and refuses Vista, and it
      is monotone in (major, minor): a later release is never refused when an
      earlier one is admitted. */
  lemma IntendedByRelease(v: OsVersion, w: OsVersion)
    ensures IsWin7PlusIntended(OsVersion(6, 1, 7601)) && IsWin7PlusIntended(OsVersion(6, 2, 9200))
    ensures IsWin7PlusIntended(OsVersion(6, 3, 9600)) && IsWin7PlusIntended(OsVersion(10, 0, 19045))
    ensures !IsWin7PlusIntended(OsVersion(6, 0, 6002))
    ensures IsWin7PlusIntended(v) && (w.major > v.major || (w.major == v.major && w.minor >= v.minor)) ==>
      IsWin7PlusIntended(w)
  {
  }
}
