/**
  The launcher's fallback path: which operating-system family the lower-cased
  `os.name` belongs to, and the shell command that opens a URL there.
 */
module Platform {
  import opened JavaStrings

  datatype Family = Windows | MacOS | Unix | Unsupported

  /**
    Substring tests in the launcher's fixed order: "win", then "mac", then
    "nix" or "nux"; anything else is unsupported.
   */
  function Classify(os: string): Family {
    if Contains(os, "win") then Windows
    else if Contains(os, "mac") then MacOS
    else if Contains(os, "nix") || Contains(os, "nux") then Unix
    else Unsupported
  }

  /** The substrings that identify a family. */
  function Keywords(f: Family): seq<string> {
    match f
    case Windows => ["win"]
    case MacOS => ["mac"]
    case Unix => ["nix", "nux"]
    case Unsupported => []
  }

  /** Position of a family in the order in which the launcher tests them. */
  function Priority(f: Family): nat {
    match f
    case Windows => 0
    case MacOS => 1
    case Unix => 2
    case Unsupported => 3
  }

  predicate Mentions(os: string, f: Family) {
    exists k :: k in Keywords(f) && Contains(os, k)
  }

  /**
    `f` is the first family, in priority order, whose keywords occur in `os`,
    or `Unsupported` when none does.
   */
  predicate IsFirstMatch(os: string, f: Family) {
    && (f == Unsupported || Mentions(os, f))
    && forall g :: Priority(g) < Priority(f) ==> !Mentions(os, g)
  }

  /** Classification is exactly first-match in priority order. */
  lemma ClassifyIsFirstMatch(os: string, f: Family)
    ensures Classify(os) == f <==> IsFirstMatch(os, f)
  {
    var c := Classify(os);
    forall g | Priority(g) < Priority(c)
      ensures !Mentions(os, g)
    {
      forall k | k in Keywords(g)
        ensures !Contains(os, k)
      {
        assert k == "win" || k == "mac" || k == "nix" || k == "nux";
      }
    }
    if c != Unsupported {
      var k := if c == Windows then "win" else if c == MacOS then "mac"
               else if Contains(os, "nix") then "nix" else "nux";
      assert k in Keywords(c) && Contains(os, k);
    }
  }

  /** An OS name containing "win" takes the Windows branch, whatever else it contains. */
  lemma WindowsTakesPriority(os: string)
    requires Contains(os, "win")
    ensures Classify(os) == Windows
  {
  }

  /**
    Well-known `os.name` values, lower-cased first as the launcher does.
    Matching is by substring, so "Darwin" falls in the Windows branch and
    "FreeBSD" is unsupported.
   */
  lemma KnownWindowsName()
    ensures Classify(LowerAscii("Windows 11")) == Windows
  {
    assert LowerAscii("Windows 11")[..3] == "win";
  }

  lemma KnownMacName()
    ensures Classify(LowerAscii("Mac OS X")) == MacOS
  {
    var os := LowerAscii("Mac OS X");
    assert os[..3] == "mac";
    assert !Contains(os, "win");
  }

  lemma KnownLinuxName()
    ensures Classify(LowerAscii("Linux")) == Unix
  {
    var os := LowerAscii("Linux");
    assert OccursAt(os, "nux", 2);
  }

  lemma DarwinIsWindows()
    ensures Classify(LowerAscii("Darwin")) == Windows
  {
    var os := LowerAscii("Darwin");
    assert OccursAt(os, "win", 3);
  }

  lemma FreeBsdIsUnsupported()
    ensures Classify("freebsd") == Unsupported
  {
    MissingFirstChar("freebsd", "win");
    MissingFirstChar("freebsd", "mac");
    MissingFirstChar("freebsd", "nix");
    MissingFirstChar("freebsd", "nux");
  }

  const WindowsPrefix := "rundll32 url.dll,FileProtocolHandler "
  const MacPrefix := "open "
  const UnixPrefix := "xdg-open "

  /** The command string that the launcher hands to `Runtime.exec` for `url`. */
  function FallbackCommand(f: Family, url: string): (cmd: string)
    requires f != Unsupported
  {
    match f
    case Windows => WindowsPrefix + url
    case MacOS => MacPrefix + url
    case Unix => UnixPrefix + url
  }

  /** The family a fallback command belongs to, read back from its first word. */
  function CommandFamily(cmd: string): Family {
    if |WindowsPrefix| <= |cmd| && cmd[..|WindowsPrefix|] == WindowsPrefix then Windows
    else if |MacPrefix| <= |cmd| && cmd[..|MacPrefix|] == MacPrefix then MacOS
    else if |UnixPrefix| <= |cmd| && cmd[..|UnixPrefix|] == UnixPrefix then Unix
    else Unsupported
  }

  /** The URL a fallback command opens: everything after its prefix. */
  function CommandUrl(cmd: string): string {
    match CommandFamily(cmd)
    case Windows => cmd[|WindowsPrefix|..]
    case MacOS => cmd[|MacPrefix|..]
    case Unix => cmd[|UnixPrefix|..]
    case Unsupported => cmd
  }

  /**
    A fallback command is the family's prefix followed by the URL unchanged:
    both can be read back from it, so distinct (family, URL) pairs never
    produce the same command.
   */
  lemma {:induction false} FallbackCommandRoundTrip(f: Family, url: string)
    requires f != Unsupported
    ensures CommandFamily(FallbackCommand(f, url)) == f
    ensures CommandUrl(FallbackCommand(f, url)) == url
  {
    var cmd := FallbackCommand(f, url);
    match f
    case Windows =>
      assert cmd[..|WindowsPrefix|] == WindowsPrefix;
    case MacOS =>
      assert cmd[..|MacPrefix|] == MacPrefix;
      assert cmd[0] != WindowsPrefix[0];
    case Unix =>
      assert cmd[..|UnixPrefix|] == UnixPrefix;
      assert cmd[0] != WindowsPrefix[0];
      assert cmd[0] != MacPrefix[0];
  }

  lemma FallbackCommandInjective(f: Family, url: string, g: Family, url': string)
    requires f != Unsupported && g != Unsupported
    requires FallbackCommand(f, url) == FallbackCommand(g, url')
    ensures f == g && url == url'
  {
    FallbackCommandRoundTrip(f, url);
    FallbackCommandRoundTrip(g, url');
  }
}
