/** Class-specific name resolvers for Eclipse/Equinox class loaders and for
    SWT colours.  Each one reads a few fields of the object and either
    returns a display name or `None` (Java `null`). */
module EclipseNameResolver {
  import opened Wrappers
  import opened Heap
  import opened Text

  /** `org.eclipse.core.runtime.adaptor.EclipseClassLoader`: the name of
      `hostdata.symbolicName`. */
  function ResolveEclipseClassLoader(snap: Snapshot, obj: int): Option<string>
  {
    match ResolveObject(snap, obj, ["hostdata", "symbolicName"])
    case Some(s) => ClassSpecificName(snap, s)
    case None => None
  }

  /** `org.eclipse.osgi.internal.baseadaptor.DefaultClassLoader`: the name
      of `manager.data.symbolicName`. */
  function ResolveDefaultClassLoader(snap: Snapshot, obj: int): Option<string>
  {
    match ResolveObject(snap, obj, ["manager", "data", "symbolicName"])
    case Some(s) => ClassSpecificName(snap, s)
    case None => None
  }

  const StartupClassLoaderName := "Equinox Startup Class Loader"

  /** `org.eclipse.equinox.launcher.Main$StartupClassLoader`: a fixed label. */
  function ResolveStartupClassLoader(snap: Snapshot, obj: int): (r: Option<string>)
    ensures r == Some(StartupClassLoaderName)
  {
    Some(StartupClassLoaderName)
  }

  /** Left-pads a digit string with zeros to `width` characters. */
  function ZeroPad(digits: string, width: int): (s: string)
    ensures |s| == if |digits| >= width then |digits| else width
  {
    Fill('0', width - |digits|) + digits
  }

  /** Java's `String.format("%03d", n)`: at least three characters, zeros
      inserted after the sign. */
  function Format03(n: int): (s: string)
    ensures n >= 0 ==> AllDigits(s) && |s| >= 3
    ensures n < 0 ==> |s| >= 3 && s[0] == '-' && AllDigits(s[1..])
  {
    if n >= 0 then ZeroPad(NatToString(n), 3) else "-" + ZeroPad(NatToString(-n), 2)
  }

  /** `org.eclipse.swt.graphics.RGB`: `(red,blue,green)`, each component
      zero-padded to three digits; `None` when a component is missing. */
  function ResolveRGB(snap: Snapshot, obj: int): Option<string>
  {
    var red := ResolveInt(snap, obj, ["red"]);
    var blue := ResolveInt(snap, obj, ["blue"]);
    var green := ResolveInt(snap, obj, ["green"]);
    if red.None? || blue.None? || green.None? then None
    else Some("(" + Format03(red.value) + "," + Format03(blue.value) + "," + Format03(green.value) + ")")
  }

  /** Leading zeros do not change the value of a digit string. */
  lemma {:induction false} ZeroPadValue(digits: string, width: int)
    requires AllDigits(digits)
    ensures AllDigits(ZeroPad(digits, width))
    ensures DigitsValue(ZeroPad(digits, width)) == DigitsValue(digits)
    decreases |digits|
  {
    var zeros := Fill('0', width - |digits|);
    var s := zeros + digits;
    if digits == [] {
      assert s == zeros;
      ZerosValue(zeros);
    } else {
      var init := digits[..|digits| - 1];
      assert s[..|s| - 1] == zeros + init;
      assert zeros == Fill('0', width - 1 - |init|);
      ZeroPadValue(init, width - 1);
    }
  }

  lemma {:induction false} ZerosValue(zeros: string)
    requires forall k :: 0 <= k < |zeros| ==> zeros[k] == '0'
    ensures AllDigits(zeros) && DigitsValue(zeros) == 0
  {
    if zeros != [] {
      ZerosValue(zeros[..|zeros| - 1]);
    }
  }

  /** A component between 0 and 999 prints as exactly three digits that
      read back as the component. */
  lemma Format03Value(n: int)
    requires 0 <= n < 1000
    ensures |Format03(n)| == 3 && AllDigits(Format03(n)) && DigitsValue(Format03(n)) == n
  {
    NatToStringRoundTrip(n);
    ZeroPadValue(NatToString(n), 3);
    if n >= 100 {
      assert NatToString(n) == NatToString(n / 10) + [DigitChar(n % 10)];
      assert NatToString(n / 10) == NatToString(n / 100) + [DigitChar(n / 10 % 10)];
    }
  }

  /** With every component in 0..999 the colour label is 13 characters:
      red at positions 1..3, blue at 5..7, green at 9..11 (the source prints
      blue before green). */
  lemma RGBLayout(snap: Snapshot, obj: int, red: int, blue: int, green: int)
    requires ResolveInt(snap, obj, ["red"]) == Some(red) && 0 <= red < 1000
    requires ResolveInt(snap, obj, ["blue"]) == Some(blue) && 0 <= blue < 1000
    requires ResolveInt(snap, obj, ["green"]) == Some(green) && 0 <= green < 1000
    ensures ResolveRGB(snap, obj).Some?
    ensures var s := ResolveRGB(snap, obj).value;
      |s| == 13 && s[0] == '(' && s[4] == ',' && s[8] == ',' && s[12] == ')' &&
      AllDigits(s[1..4]) && DigitsValue(s[1..4]) == red &&
      AllDigits(s[5..8]) && DigitsValue(s[5..8]) == blue &&
      AllDigits(s[9..12]) && DigitsValue(s[9..12]) == green
  {
    Format03Value(red);
    Format03Value(blue);
    Format03Value(green);
    var s := ResolveRGB(snap, obj).value;
    assert s[1..4] == Format03(red);
    assert s[5..8] == Format03(blue);
    assert s[9..12] == Format03(green);
  }

  /** Any missing component makes the resolver answer `None`. */
  lemma RGBMissingComponent(snap: Snapshot, obj: int)
    requires ResolveInt(snap, obj, ["red"]).None? || ResolveInt(snap, obj, ["blue"]).None?
             || ResolveInt(snap, obj, ["green"]).None?
    ensures ResolveRGB(snap, obj) == None
  {
  }

  /** The EclipseClassLoader name, read field by field: `hostdata` must
      refer to an object whose `symbolicName` refers to an object. */
  lemma EclipseClassLoaderByFields(snap: Snapshot, obj: int, hostdata: int, name: int)
    requires Field(snap, obj, "hostdata") == Some(Ref(hostdata)) && hostdata in snap.objects
    requires Field(snap, hostdata, "symbolicName") == Some(Ref(name)) && name in snap.objects
    ensures ResolveEclipseClassLoader(snap, obj) == ClassSpecificName(snap, name)
  {
  }

  lemma EclipseClassLoaderWithoutHostdata(snap: Snapshot, obj: int)
    requires forall h :: Field(snap, obj, "hostdata") == Some(Ref(h)) ==> h !in snap.objects
    ensures ResolveEclipseClassLoader(snap, obj) == None
  {
  }

  /** The DefaultClassLoader name, read field by field along
      `manager`, `data`, `symbolicName`. */
  lemma DefaultClassLoaderByFields(snap: Snapshot, obj: int, manager: int, data: int, name: int)
    requires Field(snap, obj, "manager") == Some(Ref(manager)) && manager in snap.objects
    requires Field(snap, manager, "data") == Some(Ref(data)) && data in snap.objects
    requires Field(snap, data, "symbolicName") == Some(Ref(name)) && name in snap.objects
    ensures ResolveDefaultClassLoader(snap, obj) == ClassSpecificName(snap, name)
  {
  }

  lemma DefaultClassLoaderWithoutManager(snap: Snapshot, obj: int)
    requires forall m :: Field(snap, obj, "manager") == Some(Ref(m)) ==> m !in snap.objects
    ensures ResolveDefaultClassLoader(snap, obj) == None
  {
  }
}
