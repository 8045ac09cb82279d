/** Starting a browser: the headless-shell lookup and the ordered list of launch strategies
    tried one after the other. */
module Launch {
  import opened Results
  import opened Strings
  import opened Sorting

  /** The ways of starting a browser, in the order they are tried. */
  datatype Strategy =
    | ChromiumNewHeadless
    | ChromeChannel
    | HeadlessShell(executable: string)
    | Firefox
    | WebKit

  /** The label each strategy is announced with. */
  function Label(s: Strategy): string {
    match s
    case ChromiumNewHeadless => "Chromium (新Headless)"
    case ChromeChannel => "Chromium (Chromeチャンネル)"
    case HeadlessShell(_) => "Chromium Headless Shell"
    case Firefox => "Firefox"
    case WebKit => "WebKit"
  }

  const LaunchFailedMessage: string :=
    "Playwrightのブラウザを起動できませんでした。`playwright install` やブラウザへの権限設定を確認してください。"

  /** `entry / "chrome-mac" / "headless_shell"`. */
  function ShellUnder(entry: string): string {
    entry + "/chrome-mac/headless_shell"
  }

  /** The first entry, in the given order, whose headless shell exists. */
  function FirstShell(entries: seq<string>, present: string -> bool): (r: Option<string>)
    ensures r.Some? ==> exists i :: 0 <= i < |entries| && r.value == ShellUnder(entries[i]) && present(r.value)
    ensures r.None? <==> forall i :: 0 <= i < |entries| ==> !present(ShellUnder(entries[i]))
    ensures r.Some? ==> exists i :: (0 <= i < |entries| && r.value == ShellUnder(entries[i])
                                     && forall j :: 0 <= j < i ==> !present(ShellUnder(entries[j])))
  {
    if entries == [] then None
    else if present(ShellUnder(entries[0])) then Some(ShellUnder(entries[0]))
    else
      var r := FirstShell(entries[1..], present);
      assert forall i :: 1 <= i < |entries| ==> entries[i] == entries[1..][i - 1];
      if r.Some? then
        assert exists i :: (0 <= i < |entries[1..]| && r.value == ShellUnder(entries[1..][i])
                            && forall j :: 0 <= j < i ==> !present(ShellUnder(entries[1..][j])));
        r
      else r
  }

  /** `_resolve_headless_shell`: nothing when the browsers directory is missing; otherwise the
      headless shell of the first `chromium_headless_shell-*` entry, in reverse name order,
      that has one. `entries` are the directory's entries matching that pattern. */
  method ResolveHeadlessShell(browsersPathExists: bool, entries: seq<string>, present: string -> bool)
    returns (r: Option<string>)
    ensures r == if browsersPathExists then FirstShell(SortBy(entries, Descending()), present) else None
  {
    if !browsersPathExists {
      return None;
    }
    var sorted := SortBy(entries, Descending());
    var i := 0;
    while i < |sorted|
      invariant 0 <= i <= |sorted|
      invariant FirstShell(sorted, present) == FirstShell(sorted[i..], present)
    {
      var potential := ShellUnder(sorted[i]);
      assert sorted[i..][1..] == sorted[i + 1..];
      if present(potential) {
        return Some(potential);
      }
      i := i + 1;
    }
    return None;
  }

  /** The resolved shell is the one of the entry with the greatest name among those that have
      a shell: entries are tried from the greatest name down. */
  lemma ResolvedShellIsLatest(entries: seq<string>, present: string -> bool)
    ensures var sorted := SortBy(entries, Descending());
      && SortedBy(sorted, Descending()) && multiset(sorted) == multiset(entries)
      && match FirstShell(sorted, present)
         case None => forall e :: e in entries ==> !present(ShellUnder(e))
         case Some(p) => exists i :: 0 <= i < |sorted| && p == ShellUnder(sorted[i]) && present(p)
                           && forall j :: 0 <= j < i ==> !present(ShellUnder(sorted[j]))
  {
    var sorted := SortBy(entries, Descending());
    StringOrders();
    SortBySorted(entries, Descending());
    forall e | e in entries ensures e in sorted {
      assert e in multiset(entries);
    }
  }

  /** The strategies `launch_browser` tries, in order: the headless shell only when one was
      resolved. */
  function Strategies(shell: Option<string>): seq<Strategy> {
    [ChromiumNewHeadless, ChromeChannel]
    + (if shell.Some? then [HeadlessShell(shell.value)] else [])
    + [Firefox, WebKit]
  }

  /** Some strategy starts a browser. */
  predicate AnyStarts(shell: Option<string>, starts: Strategy -> bool) {
    exists i :: 0 <= i < |Strategies(shell)| && starts(Strategies(shell)[i])
  }

  /** `launch_browser`: try each strategy once, in order, keeping the first that starts a
      browser (`starts` says which do; an exception inside `attempt` reads as "does not");
      raise when none does. `tried` lists the attempts made. */
  method LaunchBrowser(shell: Option<string>, starts: Strategy -> bool)
    returns (r: Result<Strategy, string>, tried: seq<Strategy>)
    ensures 1 <= |tried| <= |Strategies(shell)| && tried == Strategies(shell)[..|tried|]
    ensures forall i :: 0 <= i < |tried| - 1 ==> !starts(tried[i])
    ensures r.Success? ==> r.value == tried[|tried| - 1] && starts(r.value)
    ensures r.Failure? ==> r.error == LaunchFailedMessage && tried == Strategies(shell) && !starts(tried[|tried| - 1])
    ensures r.Success? <==> AnyStarts(shell, starts)
  {
    var launchers := Strategies(shell);
    tried := [];
    var i := 0;
    while i < |launchers|
      invariant 0 <= i <= |launchers| && tried == launchers[..i]
      invariant forall j :: 0 <= j < i ==> !starts(launchers[j])
    {
      tried := tried + [launchers[i]];
      if starts(launchers[i]) {
        assert tried == launchers[..i + 1];
        return Success(launchers[i]), tried;
      }
      i := i + 1;
    }
    assert launchers[..i] == launchers;
    return Failure(LaunchFailedMessage), tried;
  }

  /** The strategies are all different, so no way of starting a browser is tried twice, and the
      resolved shell is tried third, between the Chromium channels and Firefox. */
  lemma StrategiesDistinct(shell: Option<string>)
    ensures var s := Strategies(shell);
      && (forall i, j :: 0 <= i < j < |s| ==> s[i] != s[j])
      && |s| == (if shell.Some? then 5 else 4)
      && s[0] == ChromiumNewHeadless && s[1] == ChromeChannel && s[|s| - 1] == WebKit
      && (shell.Some? ==> s[2] == HeadlessShell(shell.value))
  {
  }
}
