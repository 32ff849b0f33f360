# A verified model of BrowserLauncher.openHomePage

`BrowserLauncher.openHomePage(Object urls)` opens one URL or a list of URLs in
the system's default browser. It normalises its loosely typed argument into a
list of URL strings (a `String` becomes a one-element list, a `List` keeps its
`String` elements in order, anything else throws `IllegalArgumentException`),
reads once whether the desktop's browse facility is available and what the
lower-cased `os.name` is, and then for each URL either calls `Desktop.browse`,
runs a fallback shell command (`rundll32 url.dll,FileProtocolHandler <url>`,
`open <url>` or `xdg-open <url>`, chosen by testing the OS name for "win",
then "mac", then "nix"/"nux"), or prints `Unsupported operating system: <os>`.
One try/catch wraps the whole body: the first exception prints its stack trace
and ends the call, which always returns normally.

The model has three modules:

- `JavaStrings` (`java_strings.dfy`): `String.contains` as `Contains`, proved
  equal to "occurs at some offset", and `toLowerCase` restricted to ASCII
  letters as `LowerAscii`.
- `Platform` (`platform.dfy`): the OS-family test `Classify`, proved to be
  first-match in the fixed priority order, and the fallback command strings
  `FallbackCommand`, from which the family and URL can be read back.
- `BrowserLauncher` (`browser_launcher.dfy`): the argument as a `Value`
  (`JString`, `JList`, `JNull`, `JOther`), the normalisation loop
  `NormalizeUrls`, and `OpenHomePage`, which returns the trace of actions the
  call performs (`Browse`, `Exec`, `Print`, `StackTrace`). The host is an
  `Environment`: the two desktop flags, the raw `os.name`, and an oracle
  `fails(i, action)` saying whether launching the i-th URL throws. `Trace` is
  the specification of a call; both methods are proved equal to their
  specification functions, and the properties of a call are lemmas about
  `Trace`.

Where the design description and the code differ, the model follows the code:

- The description says every normalised URL is non-empty. The code keeps an
  empty string, alone or inside a list (`NormalizeSingle`).
- The description says the browse check is made once per call. The code calls
  `desktop.isSupported(BROWSE)` in every iteration of the loop. Only
  `Desktop.isDesktopSupported()` and `os.name` are read once. The model treats
  the browse support as a constant of the environment, so the two agree.

Because matching is by substring, the lower-cased name "darwin" contains "win"
and takes the Windows branch (`DarwinIsWindows`), and "freebsd" is unsupported
(`FreeBsdIsUnsupported`). The JVM reports macOS as "Mac OS X", which takes the
macOS branch (`KnownMacName`).

## Model

| member | source | states |
|---|---|---|
| `BrowserLauncher.OpenHomePage` | src/main/kotlin/io/github/hoangclw/kotlinbrowserlauncher/BrowserLauncher.java:50-109 | the actions of the loop, with the browse check and OS name fixed before it and the try/catch around the whole body, are exactly `Trace`: the argument error's stack trace, or the planned action of each URL up to and including the first launch that throws, then that stack trace |
| `BrowserLauncher.NormalizeUrls` | src/main/kotlin/io/github/hoangclw/kotlinbrowserlauncher/BrowserLauncher.java:53-70 | the list built by the `add` loop is the `String` elements of the argument list in order; a string gives a one-element list; any other argument gives `IllegalArgumentException` with its message |
| `BrowserLauncher.NormalizeSingle` | src/main/kotlin/io/github/hoangclw/kotlinbrowserlauncher/BrowserLauncher.java:56-57 | a single `String`, the empty one included, becomes the list holding just that string |
| `BrowserLauncher.NormalizeRejects` | src/main/kotlin/io/github/hoangclw/kotlinbrowserlauncher/BrowserLauncher.java:67-70 | normalisation fails exactly when the argument is neither a `String` nor a `List` (null included), always with the same `IllegalArgumentException` message |
| `BrowserLauncher.StringElementsAppend` | src/main/kotlin/io/github/hoangclw/kotlinbrowserlauncher/BrowserLauncher.java:60-65 | keeping the `String` elements distributes over concatenation, so their relative order is preserved |
| `BrowserLauncher.StringElementsMembership` | src/main/kotlin/io/github/hoangclw/kotlinbrowserlauncher/BrowserLauncher.java:61-64 | a URL is in the normalised list if and only if the argument list holds it as a `String` element; every other element is dropped |
| `BrowserLauncher.StringElementsOfStrings` | src/main/kotlin/io/github/hoangclw/kotlinbrowserlauncher/BrowserLauncher.java:60-65 | a list made only of strings normalises to exactly those strings, duplicates and order included |
| `BrowserLauncher.FirstFailure` | src/main/kotlin/io/github/hoangclw/kotlinbrowserlauncher/BrowserLauncher.java:79-108 | the index at which the loop is cut short is the least one whose launch throws, or the list length when none throws |
| `BrowserLauncher.InvalidArgumentOnlyReported` | src/main/kotlin/io/github/hoangclw/kotlinbrowserlauncher/BrowserLauncher.java:67-108 | an argument of the wrong type leads to its stack trace alone: no browse, no command, no notice, and the call returns |
| `BrowserLauncher.NoStringsNoActions` | src/main/kotlin/io/github/hoangclw/kotlinbrowserlauncher/BrowserLauncher.java:60-83 | a list with no `String` element, the empty list among them, leads to no action at all |
| `BrowserLauncher.NoFailureEveryUrlHandled` | src/main/kotlin/io/github/hoangclw/kotlinbrowserlauncher/BrowserLauncher.java:79-103 | when no launch throws, each URL gets exactly one action, its own, in list order |
| `BrowserLauncher.FirstFailureStopsTheRest` | src/main/kotlin/io/github/hoangclw/kotlinbrowserlauncher/BrowserLauncher.java:79-108 | when the k-th launch is the first to throw, the URLs up to k get their actions, the stack trace follows, and the URLs after k get nothing |
| `BrowserLauncher.StackTraceOnlyLast` | src/main/kotlin/io/github/hoangclw/kotlinbrowserlauncher/BrowserLauncher.java:51-108 | a stack trace appears at most once, as the last action of the call |
| `BrowserLauncher.DesktopBrowsesEveryUrl` | src/main/kotlin/io/github/hoangclw/kotlinbrowserlauncher/BrowserLauncher.java:73-83 | with the desktop present and supporting BROWSE, and no browse throwing, every URL is browsed, in order |
| `BrowserLauncher.DesktopIgnoresOsName` | src/main/kotlin/io/github/hoangclw/kotlinbrowserlauncher/BrowserLauncher.java:73-83 | with the desktop present and supporting BROWSE, the trace is the same whatever the OS name |
| `BrowserLauncher.FallbackRunsCommands` | src/main/kotlin/io/github/hoangclw/kotlinbrowserlauncher/BrowserLauncher.java:85-97 | without the browse facility on a recognised platform, each URL runs the family's command, prefix followed by the URL, one per URL in list order |
| `BrowserLauncher.UnsupportedNoticePerUrl` | src/main/kotlin/io/github/hoangclw/kotlinbrowserlauncher/BrowserLauncher.java:99-101 | on an unrecognised platform no command runs and nothing throws; the notice naming the lower-cased OS is printed once per URL |
| `Platform.ClassifyIsFirstMatch` | src/main/kotlin/io/github/hoangclw/kotlinbrowserlauncher/BrowserLauncher.java:87-101 | the family chosen is exactly the first of Windows, macOS, Unix whose keywords ("win"; "mac"; "nix" or "nux") occur in the OS name, and Unsupported when none does |
| `Platform.WindowsTakesPriority` | src/main/kotlin/io/github/hoangclw/kotlinbrowserlauncher/BrowserLauncher.java:87-95 | a name containing "win" takes the Windows branch even if it also contains "mac", "nix" or "nux" |
| `Platform.KnownWindowsName` | src/main/kotlin/io/github/hoangclw/kotlinbrowserlauncher/BrowserLauncher.java:76-88 | "Windows 11", lower-cased, is classified Windows |
| `Platform.KnownMacName` | src/main/kotlin/io/github/hoangclw/kotlinbrowserlauncher/BrowserLauncher.java:76-92 | "Mac OS X", lower-cased, is classified macOS |
| `Platform.KnownLinuxName` | src/main/kotlin/io/github/hoangclw/kotlinbrowserlauncher/BrowserLauncher.java:76-96 | "Linux", lower-cased, is classified Unix through "nux" |
| `Platform.DarwinIsWindows` | src/main/kotlin/io/github/hoangclw/kotlinbrowserlauncher/BrowserLauncher.java:76-88 | "Darwin", lower-cased, contains "win" and so is classified Windows |
| `Platform.FreeBsdIsUnsupported` | src/main/kotlin/io/github/hoangclw/kotlinbrowserlauncher/BrowserLauncher.java:87-101 | "freebsd" matches no keyword and is unsupported |
| `Platform.FallbackCommandRoundTrip` | src/main/kotlin/io/github/hoangclw/kotlinbrowserlauncher/BrowserLauncher.java:88-96 | each fallback command is its family's prefix followed by the unchanged URL: family and URL are read back from the command |
| `Platform.FallbackCommandInjective` | src/main/kotlin/io/github/hoangclw/kotlinbrowserlauncher/BrowserLauncher.java:88-96 | two fallback commands are equal only for the same family and the same URL |
| `JavaStrings.Contains` | src/main/kotlin/io/github/hoangclw/kotlinbrowserlauncher/BrowserLauncher.java:87-95 | `String.contains` holds exactly when the needle occurs at some offset of the string |
| `JavaStrings.MissingFirstChar` | src/main/kotlin/io/github/hoangclw/kotlinbrowserlauncher/BrowserLauncher.java:87-95 | a string lacking the needle's first character does not contain the needle |
| `JavaStrings.LowerChar` | src/main/kotlin/io/github/hoangclw/kotlinbrowserlauncher/BrowserLauncher.java:76 | an upper-case ASCII letter maps to its lower-case letter, every other character to itself |
| `JavaStrings.LowerAscii` | src/main/kotlin/io/github/hoangclw/kotlinbrowserlauncher/BrowserLauncher.java:76 | lower-casing keeps the length and maps each character on its own |
| `JavaStrings.NoUpperCaseLeft` | src/main/kotlin/io/github/hoangclw/kotlinbrowserlauncher/BrowserLauncher.java:76 | no upper-case ASCII letter is left after lower-casing |
| `JavaStrings.LowerAsciiIdempotent` | src/main/kotlin/io/github/hoangclw/kotlinbrowserlauncher/BrowserLauncher.java:76 | lower-casing an already lower-cased name changes nothing |
| `JavaStrings.LowerPreservesOccurrence` | src/main/kotlin/io/github/hoangclw/kotlinbrowserlauncher/BrowserLauncher.java:76-95 | any spelling of a keyword in the raw OS name occurs, lower-cased, at the same offset of the lower-cased name, so the tests are case-insensitive |

## Left out

- `java.awt.Desktop`, `Runtime.exec` and `System.getProperty` are not called: their results are fields of `Environment` and their effects are `Action` values in the returned trace.
- Which launches throw is an oracle (`Environment.fails`) indexed by the URL's position; a malformed URL rejected by `URI.create`, a missing executable and a refused permission all appear as one `LaunchFailed`.
- `Desktop.getDesktop()` throwing (a headless environment) and `os.name` being unset are not modelled; the model assumes both calls succeed.
- How `Runtime.exec(String)` splits the command on whitespace is not modelled; only the exact command string is.
- `JavaStrings.LowerAscii`: lower-cases only ASCII letters; the locale-dependent mapping of other characters (for example the Turkish dotless i) is not modelled.
- The contents of stack traces and console formatting beyond the notice string are not modelled.
- Blocking in the operating-system calls, thread safety and the spawned processes themselves are out of scope.
