/**
 * `detectOS` of the utilities: the operating system named by the browser's
 * platform and user agent strings. Whether `window` and `navigator` exist
 * and the two strings are parameters.
 */
module DetectOS {
  import opened Strings

  datatype DetectedOS = Windows | Mac | Linux

  /** The mac test: a substring test, then three exact platform names. */
  predicate MacTest(platform: string, userAgent: string)
  {
    Contains(platform, "mac") || Contains(userAgent, "mac")
    || platform == "macintel" || platform == "macppc" || platform == "mac68k"
  }

  predicate LinuxTest(platform: string, userAgent: string)
  {
    Contains(platform, "linux") || Contains(userAgent, "linux") || Contains(platform, "x11")
  }

  /** A string that starts with `p` contains it. */
  lemma StartsWithContains(s: string, p: string)
    requires StartsWith(s, p)
    ensures Contains(s, p)
  {
    assert OccursAt(s, p, 0);
  }

  /** The exact platform names all contain `"mac"`, so the substring test alone decides. */
  lemma MacTestIsSubstringTest(platform: string, userAgent: string)
    ensures MacTest(platform, userAgent) <==> Contains(platform, "mac") || Contains(userAgent, "mac")
  {
    if platform == "macintel" || platform == "macppc" || platform == "mac68k" {
      assert platform[..3] == "mac";
      StartsWithContains(platform, "mac");
    }
  }

  function Detect(hasNavigator: bool, platform: string, userAgent: string): (os: DetectedOS)
    ensures !hasNavigator ==> os == Windows
    ensures os == Mac <==> hasNavigator && (Contains(Lower(platform), "mac") || Contains(Lower(userAgent), "mac"))
    ensures os == Linux <==> hasNavigator && os != Mac && LinuxTest(Lower(platform), Lower(userAgent))
  {
    if !hasNavigator then Windows
    else
      var p := Lower(platform);
      var ua := Lower(userAgent);
      MacTestIsSubstringTest(p, ua);
      if MacTest(p, ua) then Mac
      else if LinuxTest(p, ua) then Linux
      else Windows
  }

  /** Strings that mention both systems are classified as mac: the mac test comes first. */
  lemma MacBeforeLinux(platform: string, userAgent: string)
    requires Contains(Lower(userAgent), "mac") && Contains(Lower(userAgent), "linux")
    ensures Detect(true, platform, userAgent) == Mac
  {
  }

  /** The classification ignores case. */
  lemma DetectIgnoresCase(hasNavigator: bool, platform: string, userAgent: string)
    ensures Detect(hasNavigator, Lower(platform), Lower(userAgent)) == Detect(hasNavigator, platform, userAgent)
  {
    LowerIdempotent(platform);
    LowerIdempotent(userAgent);
  }
}
