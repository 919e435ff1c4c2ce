/** The host facts the runner computes once, when its class is initialised:
    operating system, CPU architecture, JVM implementation and the JVM
    specification version. The system properties and the file-system
    probes of java.home are inputs. */
module Environment {
  import opened Faults
  import opened Text

  datatype Os = Linux | MacOs | Windows

  datatype Arch = X64 | Arm64 | Arm32 | Ppc64le | Riscv64 | LoongArch64 | X86

  datatype Jvm = Hotspot | OpenJ9 | Zing

  /** The four facts, fixed for the whole run. */
  datatype Env = Env(os: Os, arch: Arch, jvm: Jvm, version: int)

  // ---------------------------------------------------------------------
  // First-match classification tables

  /** A test applied to a platform string. */
  datatype Pattern = Has(token: string) | Suffix(token: string)

  predicate Matches(s: string, p: Pattern)
  {
    match p
    case Has(t) => Contains(s, t)
    case Suffix(t) => EndsWith(s, t)
  }

  /** The value of the first rule whose pattern matches s. */
  function FirstMatch<T>(rules: seq<(Pattern, T)>, s: string): (r: Option<T>)
    ensures r.None? <==> forall k :: 0 <= k < |rules| ==> !Matches(s, rules[k].0)
    ensures r.Some? ==> exists k :: 0 <= k < |rules| && Matches(s, rules[k].0) && rules[k].1 == r.value
                                    && forall j :: 0 <= j < k ==> !Matches(s, rules[j].0)
    decreases |rules|
  {
    if rules == [] then None
    else if Matches(s, rules[0].0) then Some(rules[0].1)
    else
      var r := FirstMatch(rules[1..], s);
      assert forall k :: 1 <= k < |rules| ==> rules[k] == rules[1..][k - 1];
      r
  }

  /** When rule k matches and no earlier one does, rule k decides. */
  lemma FirstMatchAt<T>(rules: seq<(Pattern, T)>, s: string, k: nat)
    requires k < |rules| && Matches(s, rules[k].0)
    requires forall j :: 0 <= j < k ==> !Matches(s, rules[j].0)
    ensures FirstMatch(rules, s) == Some(rules[k].1)
  {
    var r := FirstMatch(rules, s);
    assert r.Some?;
    var k' :| 0 <= k' < |rules| && Matches(s, rules[k'].0) && rules[k'].1 == r.value
              && forall j :: 0 <= j < k' ==> !Matches(s, rules[j].0);
    assert k' == k;
  }

  /** One step of the search, from rule k on. */
  lemma FirstMatchFrom<T>(rules: seq<(Pattern, T)>, s: string, k: nat)
    requires k <= |rules|
    ensures FirstMatch(rules[k..], s)
            == if k == |rules| then None
               else if Matches(s, rules[k].0) then Some(rules[k].1)
               else FirstMatch(rules[k + 1..], s)
  {
    if k < |rules| {
      assert rules[k..][1..] == rules[k + 1..];
    }
  }

  /** The order in which detectOs tries the lower-cased os.name. */
  const OsRules: seq<(Pattern, Os)> :=
    [(Has("linux"), Linux), (Has("mac"), MacOs), (Has("windows"), Windows)]

  /** The order in which detectArch tries os.arch. */
  const ArchRules: seq<(Pattern, Arch)> :=
    [ (Has("x86_64"), X64), (Has("amd64"), X64), (Has("aarch64"), Arm64), (Has("arm"), Arm32),
      (Has("ppc64le"), Ppc64le), (Has("riscv64"), Riscv64), (Has("loongarch64"), LoongArch64),
      (Suffix("86"), X86) ]

  // ---------------------------------------------------------------------
  // Runner.detectOs, Runner.detectArch, Runner.detectJvmVersion

  /** detectOs: case-insensitive, first of linux / mac / windows wins. */
  function DetectOs(osName: string): (r: Result<Os>)
    ensures r.Err? ==> r.error == UnknownOs
    ensures r == Ok(Linux) <==> Contains(ToLower(osName), "linux")
  {
    var os := ToLower(osName);
    if Contains(os, "linux") then Ok(Linux)
    else if Contains(os, "mac") then Ok(MacOs)
    else if Contains(os, "windows") then Ok(Windows)
    else Err(UnknownOs)
  }

  /** detectArch: case-sensitive, in the order of ArchRules. */
  function DetectArch(arch: string): (r: Result<Arch>)
    ensures r.Err? ==> r.error == UnknownArch
    ensures r == Ok(X64) <==> Contains(arch, "x86_64") || Contains(arch, "amd64")
  {
    if Contains(arch, "x86_64") || Contains(arch, "amd64") then Ok(X64)
    else if Contains(arch, "aarch64") then Ok(Arm64)
    else if Contains(arch, "arm") then Ok(Arm32)
    else if Contains(arch, "ppc64le") then Ok(Ppc64le)
    else if Contains(arch, "riscv64") then Ok(Riscv64)
    else if Contains(arch, "loongarch64") then Ok(LoongArch64)
    else if EndsWith(arch, "86") then Ok(X86)
    else Err(UnknownArch)
  }

  /** detectOs is the first match of the lower-cased name in OsRules, and
      a name that matches no rule is an error. */
  lemma DetectOsByTable(osName: string)
    ensures DetectOs(osName) == match FirstMatch(OsRules, ToLower(osName))
                                case Some(os) => Ok(os)
                                case None => Err(UnknownOs)
  {
    var os := ToLower(osName);
    if Contains(os, "linux") {
      FirstMatchAt(OsRules, os, 0);
    } else if Contains(os, "mac") {
      FirstMatchAt(OsRules, os, 1);
    } else if Contains(os, "windows") {
      FirstMatchAt(OsRules, os, 2);
    }
  }

  /** detectArch is the first match in ArchRules, and a name that matches
      no rule is an error. */
  lemma DetectArchByTable(arch: string)
    ensures DetectArch(arch) == match FirstMatch(ArchRules, arch)
                                case Some(a) => Ok(a)
                                case None => Err(UnknownArch)
  {
    assert ArchRules[0..] == ArchRules;
    FirstMatchFrom(ArchRules, arch, 0);
    FirstMatchFrom(ArchRules, arch, 1);
    FirstMatchFrom(ArchRules, arch, 2);
    FirstMatchFrom(ArchRules, arch, 3);
    FirstMatchFrom(ArchRules, arch, 4);
    FirstMatchFrom(ArchRules, arch, 5);
    FirstMatchFrom(ArchRules, arch, 6);
    FirstMatchFrom(ArchRules, arch, 7);
    FirstMatchFrom(ArchRules, arch, 8);
  }

  /** A 64-bit x86 name is X64 even though the X86 rule would also match
      a name ending in "86". */
  lemma X64BeforeX86(pre: string, post: string)
    ensures DetectArch(pre + "x86_64" + post) == Ok(X64)
    ensures DetectArch(pre + "amd64" + post) == Ok(X64)
  {
    ContainsInfix(pre, "x86_64", post);
    ContainsInfix(pre, "amd64", post);
  }

  /** An X86 result is only ever given to a name ending in "86" that holds
      none of the earlier tokens. */
  lemma X86IsLastResort(arch: string)
    requires DetectArch(arch) == Ok(X86)
    ensures EndsWith(arch, "86")
    ensures forall k :: 0 <= k < |ArchRules| - 1 ==> !Matches(arch, ArchRules[k].0)
  {
  }

  /** detectJvmVersion: strip one leading "1." and parse the rest. */
  function DetectJvmVersion(prop: string): (r: Result<int>)
    ensures StartsWith(prop, "1.") ==> r == ParseInt(prop[2..])
    ensures !StartsWith(prop, "1.") ==> r == ParseInt(prop)
  {
    var rest := if StartsWith(prop, "1.") then prop[2..] else prop;
    ParseInt(rest)
  }

  /** The legacy "1.N" form and the plain "N" form give the same version,
      for example "1.8" and "8" both give 8, "17" gives 17. */
  lemma {:induction false} JvmVersionForms(n: nat)
    requires n <= IntMax
    ensures DetectJvmVersion(NatToString(n)) == Ok(n)
    ensures DetectJvmVersion("1." + NatToString(n)) == Ok(n)
  {
    var s := NatToString(n);
    ParseIntOfNatToString(n);
    if |s| >= 2 {
      assert IsDigit(s[1]) && s[..2][1] == s[1];
    }
    assert ("1." + s)[2..] == s;
  }

  /** Only one prefix is stripped: "1.1.8" is not a version. */
  lemma VersionPrefixStrippedOnce()
    ensures DetectJvmVersion("1.1.8").Err?
    ensures DetectJvmVersion("1.").Err?
  {
    assert "1.1.8"[2..] == "1.8";
    assert !IsDigit("1.8"[1]);
    assert "1."[2..] == "";
  }

  // ---------------------------------------------------------------------
  // Runner.detectJvm

  const J9Marker: string := "J9TraceFormat.dat"

  /** What detectJvm can observe of java.home: the names listed in its lib
      directory (None when listFiles returns null), and whether etc/zing
      exists below the directory reached after k parent steps. */
  datatype JavaHome = JavaHome(libListing: Option<seq<string>>, zingMarkerAt: nat -> bool)

  predicate HasJ9Marker(home: JavaHome)
  {
    home.libListing.Some? && J9Marker in home.libListing.value
  }

  /** Parent steps taken before the Zing probe: one for the JDK 8 /jre
      layout, one more for macOS Contents/Home. */
  function ParentSteps(version: int, os: Os): nat
  {
    (if version <= 8 then 1 else 0) + (if os == MacOs then 1 else 0)
  }

  /** The implementation detectJvm reports, given the version it reads. */
  function ExpectedJvm(home: JavaHome, version: int, os: Os): Jvm
  {
    if HasJ9Marker(home) then OpenJ9
    else if home.zingMarkerAt(ParentSteps(version, os)) then Zing
    else Hotspot
  }

  /** detectJvm: search lib for the OpenJ9 marker, then probe for Zing. */
  method DetectJvm(home: JavaHome, version: int, os: Os) returns (jvm: Jvm)
    ensures jvm == OpenJ9 <==> HasJ9Marker(home)
    ensures jvm == Zing <==> !HasJ9Marker(home) && home.zingMarkerAt(ParentSteps(version, os))
    ensures jvm == ExpectedJvm(home, version, os)
  {
    if home.libListing.Some? {
      var files := home.libListing.value;
      var k := 0;
      while k < |files|
        invariant 0 <= k <= |files|
        invariant J9Marker !in files[..k]
      {
        if files[k] == J9Marker {
          return OpenJ9;
        }
        k := k + 1;
      }
      assert files[..k] == files;
    }
    var steps := 0;
    if version <= 8 {
      steps := steps + 1;
    }
    if os == MacOs {
      steps := steps + 1;
    }
    if home.zingMarkerAt(steps) {
      return Zing;
    }
    return Hotspot;
  }

  // ---------------------------------------------------------------------
  // Static initialisation of Runner

  /** The three system properties read at start-up. */
  datatype SystemProperties = SystemProperties(osName: string, osArch: string, specVersion: string)

  /** The facts as the static initialisers compute them. They run in textual
      order, so detectJvm runs while currentJvmVersion still holds its
      default 0. */
  function StaticEnvironment(props: SystemProperties, home: JavaHome): Result<Env>
  {
    match DetectOs(props.osName)
    case Err(e) => Err(e)
    case Ok(os) =>
      match DetectArch(props.osArch)
      case Err(e) => Err(e)
      case Ok(arch) =>
        match DetectJvmVersion(props.specVersion)
        case Err(e) => Err(e)
        case Ok(v) => Ok(Env(os, arch, ExpectedJvm(home, 0, os), v))
  }

  /** The facts with detectJvm given the detected version, as the probe's
      comments intend ("Strip /jre from JDK 8 path"). */
  function CorrectedEnvironment(props: SystemProperties, home: JavaHome): Result<Env>
  {
    match DetectOs(props.osName)
    case Err(e) => Err(e)
    case Ok(os) =>
      match DetectArch(props.osArch)
      case Err(e) => Err(e)
      case Ok(arch) =>
        match DetectJvmVersion(props.specVersion)
        case Err(e) => Err(e)
        case Ok(v) => Ok(Env(os, arch, ExpectedJvm(home, v, os), v))
  }

  /** The static initialisers of Runner, in their textual order. */
  method StaticInit(props: SystemProperties, home: JavaHome) returns (r: Result<Env>)
    ensures r.Err? <==> DetectOs(props.osName).Err? || DetectArch(props.osArch).Err?
                        || DetectJvmVersion(props.specVersion).Err?
    ensures r.Ok? ==> r.value.jvm == ExpectedJvm(home, 0, r.value.os)
    ensures r == StaticEnvironment(props, home)
  {
    var os :- DetectOs(props.osName);
    var arch :- DetectArch(props.osArch);
    var currentJvmVersion := 0;  // not yet initialised
    var jvm := DetectJvm(home, currentJvmVersion, os);
    currentJvmVersion :- DetectJvmVersion(props.specVersion);
    r := Ok(Env(os, arch, jvm, currentJvmVersion));
  }

  /** Environment detection with the version read before detectJvm. */
  method DetectEnvironment(props: SystemProperties, home: JavaHome) returns (r: Result<Env>)
    ensures r.Err? <==> DetectOs(props.osName).Err? || DetectArch(props.osArch).Err?
                        || DetectJvmVersion(props.specVersion).Err?
    ensures r.Ok? ==> r.value.jvm == ExpectedJvm(home, r.value.version, r.value.os)
    ensures r == CorrectedEnvironment(props, home)
  {
    var os :- DetectOs(props.osName);
    var arch :- DetectArch(props.osArch);
    var version :- DetectJvmVersion(props.specVersion);
    var jvm := DetectJvm(home, version, os);
    r := Ok(Env(os, arch, jvm, version));
  }

  /** As written, detectJvm always takes the JDK 8 parent step, whatever
      the real version. */
  lemma StaticInitAlwaysStripsJre(props: SystemProperties, home: JavaHome)
    requires StaticEnvironment(props, home).Ok?
    ensures ParentSteps(0, StaticEnvironment(props, home).value.os) >= 1
    ensures StaticEnvironment(props, home).value.jvm
            == ExpectedJvm(home, 8, StaticEnvironment(props, home).value.os)
  {
  }

  /** A Zing JDK 17 on Linux, marker at java.home/etc/zing only: the code
      as written reports Hotspot, the corrected detection Zing. */
  lemma ZingMissedOnModernJdk()
    ensures var props := SystemProperties("Linux", "amd64", "17");
            var home := JavaHome(Some(["rt.jar"]), (k: nat) => k == 0);
            StaticEnvironment(props, home) == Ok(Env(Linux, X64, Hotspot, 17))
            && CorrectedEnvironment(props, home) == Ok(Env(Linux, X64, Zing, 17))
  {
    var home := JavaHome(Some(["rt.jar"]), (k: nat) => k == 0);
    assert DetectOs("Linux") == Ok(Linux) by {
      assert ToLower("Linux") == "linux";
      assert Contains("linux", "linux") by { assert StartsWith("linux", "linux"); }
    }
    assert DetectArch("amd64") == Ok(X64) by {
      assert Contains("amd64", "amd64") by { assert StartsWith("amd64", "amd64"); }
    }
    assert DetectJvmVersion("17") == Ok(17) by {
      assert "17"[..2][1] == '7';
      ParseIntOfNatToString(17);
      assert NatToString(17) == "17";
    }
    assert !HasJ9Marker(home) by { assert J9Marker !in ["rt.jar"]; }
    assert ExpectedJvm(home, 0, Linux) == Hotspot;
    assert ExpectedJvm(home, 17, Linux) == Zing;
  }

  /** Whatever the version, both detections agree on every host without a
      Zing marker in reach, and on every JDK 8 or older. */
  lemma DetectionsAgreeOnLegacyOrNonZing(props: SystemProperties, home: JavaHome)
    requires CorrectedEnvironment(props, home).Ok?
    requires CorrectedEnvironment(props, home).value.version <= 8
             || forall k: nat :: !home.zingMarkerAt(k)
    ensures StaticEnvironment(props, home) == CorrectedEnvironment(props, home)
  {
  }
}
