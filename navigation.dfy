/** Route strings and the routing decisions of the navigation graph
    (Navigation.kt). */
module Navigation {
  import opened Wrappers

  const SplashRoute := "splash"
  const HomeRoute := "home"
  const AuthRoute := "auth"
  const BarcodeArg := "barcode"
  /** The details destination's template, with its `{barcode}` placeholder. */
  const DetailsRoute := "details/{" + BarcodeArg + "}"
  const MissingBarcode := "Barcode is required for Details screen"

  /** Kotlin's `String.replace(pattern, replacement)`: every occurrence of
      `pattern`, scanning left to right without overlap, is replaced; the
      replacement text itself is never scanned. */
  function ReplaceAll(s: string, pattern: string, replacement: string): (r: string)
    requires |pattern| > 0
    ensures |s| < |pattern| ==> r == s
    ensures replacement == pattern ==> r == s
    decreases |s|
  {
    if |s| < |pattern| then s
    else if s[..|pattern|] == pattern then
      assert s == s[..|pattern|] + s[|pattern|..];
      replacement + ReplaceAll(s[|pattern|..], pattern, replacement)
    else
      assert s == [s[0]] + s[1..];
      [s[0]] + ReplaceAll(s[1..], pattern, replacement)
  }

  /** A prefix without the pattern's first character passes through unchanged. */
  lemma {:induction false} ReplaceAllSkipsPrefix(prefix: string, s: string, pattern: string, replacement: string)
    requires |pattern| > 0
    requires forall i :: 0 <= i < |prefix| ==> prefix[i] != pattern[0]
    ensures ReplaceAll(prefix + s, pattern, replacement) == prefix + ReplaceAll(s, pattern, replacement)
    decreases |prefix|
  {
    if prefix != [] {
      var x := prefix + s;
      var rest := prefix[1..] + s;
      ReplaceAllSkipsPrefix(prefix[1..], s, pattern, replacement);
      if |x| < |pattern| {
        assert ReplaceAll(s, pattern, replacement) == s;
      } else {
        assert x[..|pattern|][0] == prefix[0] != pattern[0];
        assert x[1..] == rest;
        calc {
          ReplaceAll(x, pattern, replacement);
          [x[0]] + ReplaceAll(rest, pattern, replacement);
          [prefix[0]] + (prefix[1..] + ReplaceAll(s, pattern, replacement));
          { assert prefix == [prefix[0]] + prefix[1..]; }
          prefix + ReplaceAll(s, pattern, replacement);
        }
      }
    } else {
      assert prefix + s == s;
    }
  }

  /** `Details.withArgs`: the template with the placeholder filled in. The
      route is "details/" followed by the barcode, for every barcode,
      including one that itself contains "{barcode}". */
  function WithArgs(barcode: string): (route: string)
    ensures route == "details/" + barcode
  {
    var pattern := "{" + BarcodeArg + "}";
    assert DetailsRoute == "details/" + pattern;
    ReplaceAllSkipsPrefix("details/", pattern, pattern, barcode);
    assert pattern[..|pattern|] == pattern && pattern[|pattern|..] == [];
    ReplaceAll(DetailsRoute, pattern, barcode)
  }

  /** `Details.createRoute`: the unfilled template. */
  function CreateRoute(): (r: string)
    ensures r == "details/{barcode}"
  {
    DetailsRoute
  }

  /** Where the splash screen sends the user: home when logged in, the
      sign-in screen otherwise. */
  function AfterSplash(loggedIn: bool): (route: string)
    ensures route == HomeRoute <==> loggedIn
    ensures route == AuthRoute <==> !loggedIn
    ensures route != SplashRoute
  {
    if loggedIn then HomeRoute else AuthRoute
  }

  /** The details destination reads its barcode argument and raises an
      error when it is missing. */
  function DetailsBarcode(argument: Option<string>): (r: Call<string>)
    ensures r.Returned? <==> argument.Some?
    ensures argument.Some? ==> r.value == argument.value
    ensures argument.None? ==> r == Threw(Some(MissingBarcode))
  {
    match argument
    case Some(b) => Returned(b)
    case None => Threw(Some(MissingBarcode))
  }
}
