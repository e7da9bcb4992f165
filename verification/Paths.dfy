/** src/srv/install_monitor.cc: rewriting device paths to drive paths, and kernel registry paths
    to the names of the registry's root keys. */
module Paths {
  import opened Common
  import opened WideStrings

  const DRIVES: nat := 26
  const LETTER_A: Unit := 0x41
  const COLON: Unit := 0x3A
  const LETTER_K: Unit := 0x4B

  /** For each letter, the device behind the drive; none if the drive is not in the mask or
      cannot be queried. */
  type DriveTable = d: seq<Option<WString>> | IsTable(d) witness seq(26, _ => None)

  predicate IsTable(d: seq<Option<WString>>) {
    |d| == DRIVES && forall i :: 0 <= i < DRIVES && d[i].Some? ==> NUL !in d[i].value
  }

  /** The case folding of wcsnicmp in the C locale. */
  function Fold(u: Unit): Unit {
    if 0x41 <= u <= 0x5A then u + 0x20 else u
  }

  /** The same unit, or the same ASCII letter in upper and lower case. */
  predicate SameLetter(u: Unit, v: Unit) {
    u == v || (0x41 <= u <= 0x5A && v == u + 0x20) || (0x41 <= v <= 0x5A && u == v + 0x20)
  }

  lemma FoldIff(u: Unit, v: Unit)
    ensures Fold(u) == Fold(v) <==> SameLetter(u, v)
  {
  }

  /** wcsnicmp(device, path, |device|) == 0. */
  predicate FoldedPrefix(device: WString, path: WString) {
    |device| <= |path| && forall k :: 0 <= k < |device| ==> Fold(path[k]) == Fold(device[k])
  }

  /** A device is a prefix when each of its units is the path's at that place, up to ASCII case. */
  lemma FoldedPrefixIff(device: WString, path: WString)
    ensures FoldedPrefix(device, path)
            <==> |device| <= |path| && forall k :: 0 <= k < |device| ==> SameLetter(path[k], device[k])
  {
    if |device| <= |path| {
      forall k | 0 <= k < |device| ensures Fold(path[k]) == Fold(device[k]) <==> SameLetter(path[k], device[k]) {
        FoldIff(path[k], device[k]);
      }
    }
  }

  predicate Matches(drives: DriveTable, i: nat, path: WString)
    requires i < DRIVES
  {
    drives[i].Some? && FoldedPrefix(drives[i].value, path)
  }

  function DrivePath(i: nat, rest: WString): WString
    requires i < DRIVES
  {
    [LETTER_A + i, COLON] + rest
  }

  /** The conversion, from drive i on. */
  function ConvertFrom(drives: DriveTable, path: WString, i: nat): Option<WString>
    requires i <= DRIVES
    decreases DRIVES - i
  {
    if i == DRIVES then None
    else if Matches(drives, i, path) then Some(DrivePath(i, path[|drives[i].value|..]))
    else ConvertFrom(drives, path, i + 1)
  }

  method ConvertFilePath(drives: DriveTable, path: WString) returns (target: Option<WString>)
    ensures target == ConvertFrom(drives, path, 0)
    ensures target == None <==> forall d :: 0 <= d < DRIVES ==> !Matches(drives, d, path)
    ensures forall d: nat | IsFirst(drives, d, path) :: target == Some([0x41 + d, 0x3A] + path[|drives[d].value|..])
  {
    FailsIff(drives, path, 0);
    forall d: nat | IsFirst(drives, d, path)
      ensures ConvertFrom(drives, path, 0) == Some([0x41 + d, 0x3A] + path[|drives[d].value|..])
    {
      PicksFirst(drives, path, d, 0);
    }
    for i := 0 to DRIVES
      invariant ConvertFrom(drives, path, 0) == ConvertFrom(drives, path, i)
    {
      if drives[i].Some? {
        var device := drives[i].value;
        var same := HasFoldedPrefix(device, path);
        if same {
          return Some(DrivePath(i, path[|device|..]));
        }
      }
    }
    return None;
  }

  method HasFoldedPrefix(device: WString, path: WString) returns (same: bool)
    ensures same == FoldedPrefix(device, path)
  {
    if |device| > |path| { return false; }
    for k := 0 to |device|
      invariant forall j :: 0 <= j < k ==> Fold(path[j]) == Fold(device[j])
    {
      if Fold(path[k]) != Fold(device[k]) { return false; }
    }
    return true;
  }

  ghost predicate IsFirst(drives: DriveTable, d: nat, path: WString) {
    d < DRIVES && Matches(drives, d, path) && forall e :: 0 <= e < d ==> !Matches(drives, e, path)
  }

  /** The conversion picks the first drive whose device is a case-insensitive prefix. */
  lemma {:induction false} PicksFirst(drives: DriveTable, path: WString, d: nat, i: nat)
    requires IsFirst(drives, d, path) && i <= d
    ensures ConvertFrom(drives, path, i) == Some([0x41 + d, 0x3A] + path[|drives[d].value|..])
    decreases d - i
  {
    if i < d { PicksFirst(drives, path, d, i + 1); }
  }

  /** The conversion fails exactly when no device is a case-insensitive prefix. */
  lemma {:induction false} FailsIff(drives: DriveTable, path: WString, i: nat)
    requires i <= DRIVES
    ensures ConvertFrom(drives, path, i) == None <==> forall d :: i <= d < DRIVES ==> !Matches(drives, d, path)
    decreases DRIVES - i
  {
    if i < DRIVES && !Matches(drives, i, path) { FailsIff(drives, path, i + 1); }
  }

  lemma Least(drives: DriveTable, path: WString, d: nat) returns (e: nat)
    requires d < DRIVES && Matches(drives, d, path)
    ensures e <= d && IsFirst(drives, e, path)
  {
    e := 0;
    while !Matches(drives, e, path)
      invariant e <= d && forall c :: 0 <= c < e ==> !Matches(drives, c, path)
      decreases d - e
    {
      e := e + 1;
    }
  }

  /** A path on drive d, given by its device, comes back exactly when no earlier drive's device is
      a case-insensitive prefix of it. */
  lemma RoundTripIff(drives: DriveTable, d: nat, rest: WString)
    requires d < DRIVES && drives[d].Some?
    ensures ConvertFrom(drives, drives[d].value + rest, 0) == Some([0x41 + d, 0x3A] + rest)
            <==> forall e :: 0 <= e < d ==> !Matches(drives, e, drives[d].value + rest)
  {
    var path := drives[d].value + rest;
    assert Matches(drives, d, path);
    var e := Least(drives, path, d);
    PicksFirst(drives, path, e, 0);
    if e == d {
      assert path[|drives[d].value|..] == rest;
    } else {
      assert DrivePath(e, path[|drives[e].value|..])[0] != DrivePath(d, rest)[0];
    }
  }

  /** One of the two devices is a case-insensitive prefix of the other. */
  predicate Comparable(a: WString, b: WString) {
    FoldedPrefix(a, b) || FoldedPrefix(b, a)
  }

  ghost predicate RoundTrips(drives: DriveTable, d: nat, rest: WString)
    requires d < DRIVES && drives[d].Some?
  {
    ConvertFrom(drives, drives[d].value + rest, 0) == Some([0x41 + d, 0x3A] + rest)
  }

  lemma ComparableCanShadow(drives: DriveTable, e: nat, d: nat) returns (rest: WString)
    requires e < d < DRIVES && drives[e].Some? && drives[d].Some? && Comparable(drives[e].value, drives[d].value)
    ensures Matches(drives, e, drives[d].value + rest)
  {
    var a, b := drives[e].value, drives[d].value;
    if FoldedPrefix(a, b) {
      rest := [];
    } else {
      rest := a[|b|..];
      assert forall k :: 0 <= k < |a| ==> Fold((b + rest)[k]) == Fold(a[k]);
    }
  }

  /** Every path on every drive comes back exactly when no two drives have devices of which one
      is a case-insensitive prefix of the other. */
  lemma AllRoundTripIff(drives: DriveTable)
    ensures (forall d: nat, rest | d < DRIVES && drives[d].Some? :: RoundTrips(drives, d, rest))
            <==> (forall e: nat, d: nat | e < d < DRIVES && drives[e].Some? && drives[d].Some? ::
                    !Comparable(drives[e].value, drives[d].value))
  {
    if e: nat, d: nat :| e < d < DRIVES && drives[e].Some? && drives[d].Some?
                         && Comparable(drives[e].value, drives[d].value) {
      var rest := ComparableCanShadow(drives, e, d);
      RoundTripIff(drives, d, rest);
      assert !RoundTrips(drives, d, rest);
    } else {
      forall d: nat, rest | d < DRIVES && drives[d].Some? ensures RoundTrips(drives, d, rest) {
        RoundTripIff(drives, d, rest);
        forall e | 0 <= e < d ensures !Matches(drives, e, drives[d].value + rest) {
          if Matches(drives, e, drives[d].value + rest) {
            MatchIsComparable(drives[e].value, drives[d].value, rest);
          }
        }
      }
    }
  }

  lemma MatchIsComparable(a: WString, b: WString, rest: WString)
    requires FoldedPrefix(a, b + rest)
    ensures Comparable(a, b)
  {
    assert forall k :: 0 <= k < |a| && k < |b| ==> (b + rest)[k] == b[k];
  }

  /** The tenth volume is taken for the first. */
  lemma VolumeTenIsTakenForOne() returns (drives: DriveTable)
    ensures drives[3].Some? && !RoundTrips(drives, 3, [0x5C, 0x78])
  {
    var one := Wide("\\Device\\HarddiskVolume1");
    var ten := one + Wide("0");
    assert NUL !in one && NUL !in ten;
    drives := seq(26, i => if i == 2 then Some(one) else if i == 3 then Some(ten) else None);
    assert Matches(drives, 2, ten + [0x5C, 0x78]);
    RoundTripIff(drives, 3, [0x5C, 0x78]);
  }

  /** The first volume, if it is drive C, gives paths on C. */
  lemma DriveCIsC(drives: DriveTable, rest: WString)
    requires drives[0] == None && drives[1] == None && drives[2] == Some(Wide("\\Device\\HarddiskVolume1"))
    ensures ConvertFrom(drives, Wide("\\Device\\HarddiskVolume1") + rest, 0) == Some(Wide("C:") + rest)
  {
    RoundTripIff(drives, 2, rest);
    assert Wide("C:") == [0x43, 0x3A];
  }

  // ---- what wcsncpy drops does not matter

  /** Padding a path from its first NUL neither makes nor breaks a match. */
  lemma PaddedMatches(device: WString, path: WString)
    requires NUL !in device
    ensures FoldedPrefix(device, NulPadded(path)) <==> FoldedPrefix(device, path)
    ensures FoldedPrefix(device, path) ==> NUL !in path[..|device|]
  {
    NulPaddedLength(path);
    if |device| <= |path| {
      forall k | 0 <= k < |device|
        ensures NulPadded(path)[k] == if NUL in path[..k] then NUL else path[k]
        ensures Fold(device[k]) != NUL
      {
        NulPaddedAt(path, k);
      }
      if FoldedPrefix(device, NulPadded(path)) {
        assert forall k :: 0 <= k < |device| ==> NulPadded(path)[k] != NUL && NulPadded(path)[k] == path[k];
      }
      if FoldedPrefix(device, path) {
        assert forall k :: 0 <= k < |device| ==> path[k] != NUL;
      }
    }
  }

  /** A path and its padding are converted to the same text. */
  lemma {:induction false} ConvertPadded(drives: DriveTable, path: WString, i: nat)
    requires i <= DRIVES
    ensures var (padded, plain) := (ConvertFrom(drives, NulPadded(path), i), ConvertFrom(drives, path, i));
            && (padded == None <==> plain == None)
            && (plain.Some? ==> CStr(padded.value) == CStr(plain.value))
    decreases DRIVES - i
  {
    if i < DRIVES {
      if drives[i].Some? { PaddedMatches(drives[i].value, path); }
      if Matches(drives, i, path) {
        CutAndPad([LETTER_A + i, COLON], path, |drives[i].value|);
      } else {
        ConvertPadded(drives, path, i + 1);
      }
    }
  }

  // ---- registry paths

  const HKLM_PREFIX: WString := Wide("\\REGISTRY\\MACHINE\\")
  const HKU_PREFIX: WString := Wide("\\REGISTRY\\USER\\")
  const HKLM_NAME: WString := Wide("HKEY_LOCAL_MACHINE\\")
  const HKCU_NAME: WString := Wide("HKEY_CURRENT_USER\\")

  function ConvertRegistryPath(path: WString): Option<WString> {
    if HKLM_PREFIX <= path then Some(HKLM_NAME + path[|HKLM_PREFIX|..])
    else if HKU_PREFIX <= path then Some(HKCU_NAME + path[|HKU_PREFIX|..])
    else None
  }

  /** What becomes of the two kinds of registry path that are recorded. */
  lemma RegistryNames(rest: WString)
    ensures ConvertRegistryPath(Wide("\\REGISTRY\\MACHINE\\") + rest) == Some(Wide("HKEY_LOCAL_MACHINE\\") + rest)
    ensures ConvertRegistryPath(Wide("\\REGISTRY\\USER\\") + rest) == Some(Wide("HKEY_CURRENT_USER\\") + rest)
  {
    NamesDiffer([], rest);
  }

  /** All others are not. */
  lemma RegistryFailsIff(path: WString)
    ensures ConvertRegistryPath(path) == None
            <==> !(Wide("\\REGISTRY\\MACHINE\\") <= path) && !(Wide("\\REGISTRY\\USER\\") <= path)
  {
  }

  function RegistryPathOf(name: WString): Option<WString> {
    if HKLM_NAME <= name then Some(HKLM_PREFIX + name[|HKLM_NAME|..])
    else if HKCU_NAME <= name then Some(HKU_PREFIX + name[|HKCU_NAME|..])
    else None
  }

  lemma NamesDiffer(a: WString, b: WString)
    ensures !(HKCU_NAME <= HKLM_NAME + a) && !(HKLM_NAME <= HKCU_NAME + b)
    ensures !(HKU_PREFIX <= HKLM_PREFIX + a) && !(HKLM_PREFIX <= HKU_PREFIX + b)
  {
    assert HKLM_NAME[5] == 0x4C && HKCU_NAME[5] == 0x43;
    assert (HKLM_NAME + a)[5] == 0x4C && (HKCU_NAME + b)[5] == 0x43;
    assert HKLM_PREFIX[10] == 0x4D && HKU_PREFIX[10] == 0x55;
    assert (HKLM_PREFIX + a)[10] == 0x4D && (HKU_PREFIX + b)[10] == 0x55;
  }

  lemma RegistryThere(p: WString)
    ensures ConvertRegistryPath(p).Some? ==> RegistryPathOf(ConvertRegistryPath(p).value) == Some(p)
  {
    if HKLM_PREFIX <= p {
      assert p == HKLM_PREFIX + p[|HKLM_PREFIX|..];
    } else if HKU_PREFIX <= p {
      NamesDiffer([], p[|HKU_PREFIX|..]);
      assert p == HKU_PREFIX + p[|HKU_PREFIX|..];
    }
  }

  lemma RegistryBack(p: WString)
    ensures RegistryPathOf(p).Some? ==> ConvertRegistryPath(RegistryPathOf(p).value) == Some(p)
  {
    if HKLM_NAME <= p {
      assert p == HKLM_NAME + p[|HKLM_NAME|..];
    } else if HKCU_NAME <= p {
      NamesDiffer([], p[|HKCU_NAME|..]);
      assert p == HKCU_NAME + p[|HKCU_NAME|..];
    }
  }

  /** The registry conversion and its inverse undo each other where they succeed. */
  lemma RegistryRoundTrip(p: WString)
    ensures ConvertRegistryPath(p).Some? ==> RegistryPathOf(ConvertRegistryPath(p).value) == Some(p)
    ensures RegistryPathOf(p).Some? ==> ConvertRegistryPath(RegistryPathOf(p).value) == Some(p)
  {
    RegistryThere(p);
    RegistryBack(p);
  }

  /** Different registry paths are never recorded under the same name. */
  lemma RegistryInjective(p: WString, q: WString)
    requires ConvertRegistryPath(p).Some? && ConvertRegistryPath(p) == ConvertRegistryPath(q)
    ensures p == q
  {
    RegistryRoundTrip(p);
    RegistryRoundTrip(q);
  }

  lemma WideHasNoNul(s: string)
    requires forall c :: c in s ==> 0 < c as int < 0x80
    ensures NUL !in Wide(s)
  {
    forall i | 0 <= i < |s| ensures Wide(s)[i] != NUL {
      assert s[i] in s;
    }
  }

  lemma PrefixesHaveNoNul()
    ensures NUL !in HKLM_PREFIX && NUL !in HKU_PREFIX
  {
    WideHasNoNul("\\REGISTRY\\MACHINE\\");
    WideHasNoNul("\\REGISTRY\\USER\\");
  }

  lemma PaddedPrefix(prefix: WString, s: WString)
    requires NUL !in prefix
    ensures prefix <= NulPadded(s) <==> prefix <= s
    ensures prefix <= s ==> NUL !in s[..|prefix|]
  {
    NulPaddedLength(s);
    if prefix <= s {
      NulPaddedTail(s, |prefix|);
    } else if prefix <= NulPadded(s) {
      forall k | 0 <= k < |prefix| ensures s[k] == prefix[k] {
        NulPaddedAt(s, k);
        assert NulPadded(s)[k] == prefix[k];
      }
      assert false;
    }
  }

  lemma ConvertPaddedRegistry(path: WString)
    ensures var (padded, plain) := (ConvertRegistryPath(NulPadded(path)), ConvertRegistryPath(path));
            && (padded == None <==> plain == None)
            && (plain.Some? ==> CStr(padded.value) == CStr(plain.value))
  {
    PrefixesHaveNoNul();
    PaddedPrefix(HKLM_PREFIX, path);
    PaddedPrefix(HKU_PREFIX, path);
    if HKLM_PREFIX <= path {
      CutAndPad(HKLM_NAME, path, |HKLM_PREFIX|);
    } else if HKU_PREFIX <= path {
      CutAndPad(HKCU_NAME, path, |HKU_PREFIX|);
    }
  }

  // ---- keys of the asset table

  /** A drive letter and a colon. */
  predicate IsFileKey(k: WString) {
    |k| >= 2 && LETTER_A <= k[0] < LETTER_A + DRIVES && k[1] == COLON
  }

  /** The name of a registry key. */
  predicate IsRegistryKey(k: WString) {
    Wide("HKEY_") <= k
  }

  lemma KeysApart(k: WString)
    ensures !(IsFileKey(k) && IsRegistryKey(k))
  {
    assert Wide("HKEY_")[1] == LETTER_K;
  }

  /** A converted file path, cut at an embedded NUL, is a file key. */
  lemma {:induction false} ConvertedIsFileKey(drives: DriveTable, path: WString, i: nat)
    requires i <= DRIVES && ConvertFrom(drives, path, i).Some?
    ensures IsFileKey(CStr(ConvertFrom(drives, path, i).value))
    decreases DRIVES - i
  {
    if Matches(drives, i, path) {
      var rest := path[|drives[i].value|..];
      assert DrivePath(i, rest)[1..] == [COLON] + rest;
      assert ([COLON] + rest)[1..] == rest;
      assert CStr(DrivePath(i, rest)) == [LETTER_A + i] + ([COLON] + CStr(rest));
    } else {
      ConvertedIsFileKey(drives, path, i + 1);
    }
  }

  lemma {:induction false} CStrKeepsPrefix(prefix: WString, s: WString)
    requires prefix <= s && NUL !in prefix
    ensures prefix <= CStr(s)
  {
    if prefix != [] {
      assert s[0] == prefix[0];
      CStrKeepsPrefix(prefix[1..], s[1..]);
      assert prefix == [prefix[0]] + prefix[1..];
    }
  }

  lemma ConvertedIsRegistryKey(path: WString)
    requires ConvertRegistryPath(path).Some?
    ensures IsRegistryKey(CStr(ConvertRegistryPath(path).value))
  {
    assert Wide("HKEY_") <= HKLM_NAME && Wide("HKEY_") <= HKCU_NAME;
    assert NUL !in Wide("HKEY_");
    CStrKeepsPrefix(Wide("HKEY_"), ConvertRegistryPath(path).value);
  }
}
