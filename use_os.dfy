/**
 * The `detectOS` local to the `useOS` hook: the same mac test as the
 * utility, with every other system treated as Windows.
 */
module UseOS {
  import opened Strings
  import opened Catalog
  import DetectOS

  function DetectMacOrWindows(hasNavigator: bool, platform: string, userAgent: string): (os: OS)
    ensures os == Mac <==> hasNavigator && (Contains(Lower(platform), "mac") || Contains(Lower(userAgent), "mac"))
  {
    if !hasNavigator then Windows
    else
      var p := Lower(platform);
      var ua := Lower(userAgent);
      DetectOS.MacTestIsSubstringTest(p, ua);
      if DetectOS.MacTest(p, ua) then Mac
      else Windows
  }

  /**
   * The hook and the utility agree on mac; where the utility says linux or
   * windows, the hook says windows.
   */
  lemma AgreesWithUtility(hasNavigator: bool, platform: string, userAgent: string)
    ensures DetectMacOrWindows(hasNavigator, platform, userAgent) == Mac
            <==> DetectOS.Detect(hasNavigator, platform, userAgent) == DetectOS.Mac
    ensures DetectMacOrWindows(hasNavigator, platform, userAgent) == Windows
            <==> DetectOS.Detect(hasNavigator, platform, userAgent) != DetectOS.Mac
  {
  }
}
