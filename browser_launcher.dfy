/**
  `BrowserLauncher.openHomePage`: turn a loosely typed argument into a list of
  URLs and open each one, through the desktop's browse facility when there is
  one, else through a per-platform shell command.

  The operating system is not called: each call it would make is recorded as
  an `Action`, and `openHomePage` is modelled by the sequence of actions it
  performs (its trace). Which calls throw is decided by an oracle in the
  `Environment`.
 */
module BrowserLauncher {
  import opened JavaStrings
  import opened Platform

  /** The argument, a Java `Object`: only its runtime class matters. */
  datatype Value =
    | JString(s: string)        // an instance of String
    | JList(elems: seq<Value>)  // an instance of java.util.List
    | JNull                     // null
    | JOther                    // an instance of any other class

  /** The exceptions the method catches. */
  datatype Exception =
    | IllegalArgument(message: string)  // thrown for an argument of the wrong type
    | LaunchFailed                      // thrown by Desktop.browse or Runtime.exec

  datatype Result<T> = Ok(value: T) | Err(error: Exception)

  /** The observable effects of one call. */
  datatype Action =
    | Browse(uri: string)          // Desktop.browse(URI.create(uri))
    | Exec(command: string)        // Runtime.getRuntime().exec(command)
    | Print(line: string)          // System.out.println(line)
    | StackTrace(cause: Exception) // e.printStackTrace() in the catch block

  /** What the method asks of its host, fixed for the whole call. */
  datatype Environment = Environment(
    desktopSupported: bool,            // Desktop.isDesktopSupported()
    browseSupported: bool,             // desktop.isSupported(Desktop.Action.BROWSE)
    osName: string,                    // System.getProperty("os.name")
    fails: (nat, Action) -> bool)      // does the launch of the i-th URL throw?

  const InvalidArgumentMessage := "Invalid argument type. Expected String or List<String>"
  const UnsupportedNotice := "Unsupported operating system: "

  /** Only these actions call into the operating system, and only they can throw. */
  predicate IsLaunch(a: Action) {
    a.Browse? || a.Exec?
  }

  // ---------------------------------------------------------------------------
  // Input normalisation
  // ---------------------------------------------------------------------------

  /** The `String` elements of a list, in their order; every other element is dropped. */
  function StringElements(items: seq<Value>): seq<string>
    decreases |items|
  {
    if items == [] then []
    else
      var last := items[|items| - 1];
      StringElements(items[..|items| - 1]) + (if last.JString? then [last.s] else [])
  }

  /** The URL list the method builds from its argument, or the exception it throws. */
  function Normalize(urls: Value): Result<seq<string>> {
    match urls
    case JString(s) => Ok([s])
    case JList(items) => Ok(StringElements(items))
    case _ => Err(IllegalArgument(InvalidArgumentMessage))
  }

  /** Filtering distributes over concatenation: the relative order of the strings is kept. */
  lemma {:induction false} StringElementsAppend(a: seq<Value>, b: seq<Value>)
    ensures StringElements(a + b) == StringElements(a) + StringElements(b)
    decreases |b|
  {
    if b == [] {
      assert a + b == a;
    } else {
      var init := b[..|b| - 1];
      assert (a + b)[..|a + b| - 1] == a + init;
      StringElementsAppend(a, init);
    }
  }

  /** A string is kept exactly when the list holds it as a `String` element. */
  lemma {:induction false} StringElementsMembership(items: seq<Value>, u: string)
    ensures u in StringElements(items) <==> JString(u) in items
    decreases |items|
  {
    if items != [] {
      var init := items[..|items| - 1];
      StringElementsMembership(init, u);
      assert items == init + [items[|items| - 1]];
    }
  }

  /** Nothing but the `String` elements is dropped: a list of strings is kept whole. */
  lemma {:induction false} StringElementsOfStrings(urls: seq<string>)
    ensures StringElements(seq(|urls|, i requires 0 <= i < |urls| => JString(urls[i]))) == urls
    decreases |urls|
  {
    if urls != [] {
      var items := seq(|urls|, i requires 0 <= i < |urls| => JString(urls[i]));
      var init := urls[..|urls| - 1];
      assert items[..|items| - 1] == seq(|init|, i requires 0 <= i < |init| => JString(init[i]));
      StringElementsOfStrings(init);
    }
  }

  /** The argument is rejected exactly when it is neither a `String` nor a `List`. */
  lemma NormalizeRejects(urls: Value)
    ensures Normalize(urls).Err? <==> !urls.JString? && !urls.JList?
    ensures Normalize(urls).Err? ==> Normalize(urls).error == IllegalArgument(InvalidArgumentMessage)
  {
  }

  /** A single string becomes a one-element list, even when it is empty. */
  lemma NormalizeSingle(u: string)
    ensures Normalize(JString(u)) == Ok([u])
  {
  }

  /** Lines 53-70: build `urlList` from the argument. */
  method NormalizeUrls(urls: Value) returns (r: Result<seq<string>>)
    ensures r == Normalize(urls)
  {
    var urlList: seq<string> := [];
    match urls {
      case JString(s) =>
        urlList := [s];
      case JList(items) =>
        for i := 0 to |items|
          invariant urlList == StringElements(items[..i])
        {
          assert items[..i + 1][..i] == items[..i];
          if items[i].JString? {
            urlList := urlList + [items[i].s];
          }
        }
        assert items[..|items|] == items;
      case _ =>
        return Err(IllegalArgument(InvalidArgumentMessage));
    }
    r := Ok(urlList);
  }

  // ---------------------------------------------------------------------------
  // Dispatch and the trace of one call
  // ---------------------------------------------------------------------------

  /** `desktop != null && desktop.isSupported(Desktop.Action.BROWSE)`. */
  predicate BrowseAvailable(env: Environment) {
    env.desktopSupported && env.browseSupported
  }

  /** The one action taken for `url`, given the browse check and the lower-cased OS name. */
  function ActionFor(url: string, browse: bool, os: string): Action {
    if browse then Browse(url)
    else
      match Classify(os)
      case Unsupported => Print(UnsupportedNotice + os)
      case f => Exec(FallbackCommand(f, url))
  }

  /** The action for each URL of the list, had nothing thrown. */
  function Planned(urlList: seq<string>, env: Environment): seq<Action> {
    var browse, os := BrowseAvailable(env), LowerAscii(env.osName);
    seq(|urlList|, i requires 0 <= i < |urlList| => ActionFor(urlList[i], browse, os))
  }

  predicate Throws(acts: seq<Action>, fails: (nat, Action) -> bool, i: nat)
    requires i < |acts|
  {
    IsLaunch(acts[i]) && fails(i, acts[i])
  }

  /** The first index from `from` on whose action throws, or `|acts|` when none does. */
  function FirstFailure(acts: seq<Action>, fails: (nat, Action) -> bool, from: nat): (k: nat)
    requires from <= |acts|
    ensures from <= k <= |acts|
    ensures forall j :: from <= j < k ==> !Throws(acts, fails, j)
    ensures k < |acts| ==> Throws(acts, fails, k)
    decreases |acts| - from
  {
    if from == |acts| || Throws(acts, fails, from) then from
    else FirstFailure(acts, fails, from + 1)
  }

  /**
    The actions one call performs: the stack trace of the argument error, or
    the planned actions up to and including the first one that throws,
    followed by that exception's stack trace.
   */
  function Trace(urls: Value, env: Environment): seq<Action> {
    match Normalize(urls)
    case Err(e) => [StackTrace(e)]
    case Ok(urlList) =>
      var acts := Planned(urlList, env);
      var k := FirstFailure(acts, env.fails, 0);
      if k < |acts| then acts[..k + 1] + [StackTrace(LaunchFailed)] else acts
  }

  /**
    Lines 50-109. Desktop availability and the OS name are read once, before
    the loop; the try/catch around the whole body means that the first
    exception ends the call, which still returns normally.
   */
  method OpenHomePage(urls: Value, env: Environment) returns (trace: seq<Action>)
    ensures trace == Trace(urls, env)
  {
    var normalized := NormalizeUrls(urls);
    if normalized.Err? {
      trace := [StackTrace(normalized.error)];
      return;
    }
    var urlList := normalized.value;
    var browse := env.desktopSupported && env.browseSupported;
    var os := LowerAscii(env.osName);
    ghost var acts := Planned(urlList, env);
    trace := [];
    var i := 0;
    while i < |urlList|
      invariant 0 <= i <= |urlList|
      invariant trace == acts[..i]
      invariant forall j :: 0 <= j < i ==> !Throws(acts, env.fails, j)
    {
      var url := urlList[i];
      var action: Action;
      if browse {
        action := Browse(url);
      } else if Contains(os, "win") {
        action := Exec(WindowsPrefix + url);
      } else if Contains(os, "mac") {
        action := Exec(MacPrefix + url);
      } else if Contains(os, "nix") || Contains(os, "nux") {
        action := Exec(UnixPrefix + url);
      } else {
        action := Print(UnsupportedNotice + os);
      }
      assert action == acts[i];
      trace := trace + [action];
      if IsLaunch(action) && env.fails(i, action) {
        assert Throws(acts, env.fails, i);
        assert FirstFailure(acts, env.fails, 0) == i;
        assert acts[..i + 1] == acts[..i] + [action];
        trace := trace + [StackTrace(LaunchFailed)];
        return;
      }
      i := i + 1;
    }
  }

  // ---------------------------------------------------------------------------
  // Properties of a call
  // ---------------------------------------------------------------------------

  /** An argument of the wrong type is reported, and nothing is opened. */
  lemma InvalidArgumentOnlyReported(urls: Value, env: Environment)
    requires !urls.JString? && !urls.JList?
    ensures Trace(urls, env) == [StackTrace(IllegalArgument(InvalidArgumentMessage))]
  {
  }

  /** A list without `String` elements, the empty list among them, leads to no action. */
  lemma {:induction false} NoStringsNoActions(items: seq<Value>, env: Environment)
    requires forall v :: v in items ==> !v.JString?
    ensures Trace(JList(items), env) == []
  {
    if StringElements(items) != [] {
      var u := StringElements(items)[0];
      StringElementsMembership(items, u);
    }
  }

  /** Without an exception every URL gets exactly its planned action, in list order. */
  lemma NoFailureEveryUrlHandled(urls: Value, env: Environment, urlList: seq<string>)
    requires Normalize(urls) == Ok(urlList)
    requires forall i :: 0 <= i < |urlList| ==> !Throws(Planned(urlList, env), env.fails, i)
    ensures Trace(urls, env) == Planned(urlList, env)
    ensures |Trace(urls, env)| == |urlList|
  {
  }

  /**
    The first launch that throws ends the call: the URLs before it and it
    have their actions, the stack trace follows, and later URLs get nothing.
   */
  lemma FirstFailureStopsTheRest(urls: Value, env: Environment, urlList: seq<string>, k: nat)
    requires Normalize(urls) == Ok(urlList)
    requires k < |urlList| && Throws(Planned(urlList, env), env.fails, k)
    requires forall j :: 0 <= j < k ==> !Throws(Planned(urlList, env), env.fails, j)
    ensures |Trace(urls, env)| == k + 2
    ensures Trace(urls, env)[..k + 1] == Planned(urlList, env)[..k + 1]
    ensures Trace(urls, env)[k + 1] == StackTrace(LaunchFailed)
  {
    var acts := Planned(urlList, env);
    assert FirstFailure(acts, env.fails, 0) == k;
  }

  /** A stack trace is printed at most once, and only as the last action of the call. */
  lemma StackTraceOnlyLast(urls: Value, env: Environment)
    ensures forall t :: 0 <= t < |Trace(urls, env)| - 1 ==> !Trace(urls, env)[t].StackTrace?
  {
  }

  /** With the desktop's browse facility, every URL is browsed in order. */
  lemma DesktopBrowsesEveryUrl(urls: Value, env: Environment, urlList: seq<string>)
    requires Normalize(urls) == Ok(urlList) && BrowseAvailable(env)
    requires forall i :: 0 <= i < |urlList| ==> !env.fails(i, Browse(urlList[i]))
    ensures Trace(urls, env) == seq(|urlList|, i requires 0 <= i < |urlList| => Browse(urlList[i]))
  {
  }

  /** With the desktop's browse facility, the OS name plays no part. */
  lemma DesktopIgnoresOsName(urls: Value, env: Environment, otherName: string)
    requires BrowseAvailable(env)
    ensures Trace(urls, env) == Trace(urls, env.(osName := otherName))
  {
    if urls.JString? || urls.JList? {
      var urlList := Normalize(urls).value;
      assert Planned(urlList, env) == Planned(urlList, env.(osName := otherName));
    }
  }

  /**
    Without the browse facility on a recognised platform, each URL runs the
    family's command (prefix followed by the URL), one per URL, in list order.
   */
  lemma FallbackRunsCommands(urls: Value, env: Environment, urlList: seq<string>)
    requires Normalize(urls) == Ok(urlList) && !BrowseAvailable(env)
    requires Classify(LowerAscii(env.osName)) != Unsupported
    requires forall i :: 0 <= i < |urlList| ==> !Throws(Planned(urlList, env), env.fails, i)
    ensures var f := Classify(LowerAscii(env.osName));
      Trace(urls, env) == seq(|urlList|, i requires 0 <= i < |urlList| => Exec(FallbackCommand(f, urlList[i])))
  {
  }

  /**
    On an unrecognised platform no command runs: the notice naming the
    lower-cased OS is printed once per URL, and nothing can throw.
   */
  lemma UnsupportedNoticePerUrl(urls: Value, env: Environment, urlList: seq<string>)
    requires Normalize(urls) == Ok(urlList) && !BrowseAvailable(env)
    requires Classify(LowerAscii(env.osName)) == Unsupported
    ensures Trace(urls, env)
      == seq(|urlList|, i requires 0 <= i < |urlList| => Print(UnsupportedNotice + LowerAscii(env.osName)))
  {
  }
}
