/**
 * The server's command-line entry: at most one of seven maintenance flags
 * may be given; the first that is present, in a fixed order, chooses the
 * action. The actions themselves (creating tables, exports, imports,
 * creating the administrator), the logger and `os.Exit` are external: what
 * an action returns enters as a parameter, and the log lines and the exit
 * code are returned.
 */
module CliFlag {
  import opened Wrappers

  /** The seven flags, in the order `Run` tests them. */
  datatype FlagName = SqlFlag | SqlExportFlag | SqlImportFlag | EsFlag | EsExportFlag | EsImportFlag | AdminFlag

  const Order: seq<FlagName> := [SqlFlag, SqlExportFlag, SqlImportFlag, EsFlag, EsExportFlag, EsImportFlag, AdminFlag]

  /** The name each flag is given on the command line. */
  function Name(f: FlagName): string
  {
    match f
    case SqlFlag => "sql"
    case SqlExportFlag => "sql-export"
    case SqlImportFlag => "sql-import"
    case EsFlag => "es"
    case EsExportFlag => "es-export"
    case EsImportFlag => "es-import"
    case AdminFlag => "admin"
  }

  /** The two import flags carry a file path; the others are switches. */
  predicate TakesPath(f: FlagName)
  {
    f == SqlImportFlag || f == EsImportFlag
  }

  /** Every flag is tested exactly once, and distinct flags have distinct names. */
  lemma OrderComplete(f: FlagName, g: FlagName)
    ensures f in Order
    ensures |Order| == 7 && forall i, j :: 0 <= i < j < 7 ==> Order[i] != Order[j]
    ensures Name(f) == Name(g) ==> f == g
  {
  }

  /**
   * What the command-line library parsed: how many flags were given, the
   * switches that are true, and the string flags that were set with their
   * values.
   */
  datatype Context = Context(numFlags: nat, switches: set<string>, strings: map<string, string>)

  /** `c.Bool(name)` for a switch, `c.IsSet(name)` for a path flag. */
  predicate Present(c: Context, f: FlagName)
  {
    if TakesPath(f) then Name(f) in c.strings else Name(f) in c.switches
  }

  /** The flag the `switch` in `Run` stops at: the first present one in `Order`. */
  function Choose(c: Context): (r: Option<FlagName>)
    ensures r.None? <==> forall f :: !Present(c, f)
    ensures r.Some? ==> Present(c, r.value)
    ensures r.Some? ==> forall i :: 0 <= i < |Order| && Order[i] == r.value ==>
                          forall j :: 0 <= j < i ==> !Present(c, Order[j])
  {
    match FirstPresent(c, 0)
    case None =>
      OrderCovers();
      None
    case Some(i) =>
      OrderDistinct(i);
      Some(Order[i])
  }

  lemma OrderCovers()
    ensures forall f :: f in Order
  {
    forall f ensures f in Order {
      OrderComplete(f, f);
    }
  }

  lemma OrderDistinct(i: nat)
    requires i < |Order|
    ensures forall j :: 0 <= j < |Order| && Order[j] == Order[i] ==> j == i
  {
  }

  /** The index in `Order`, from `k` on, of the first present flag. */
  function FirstPresent(c: Context, k: nat): (r: Option<nat>)
    requires k <= |Order|
    ensures r.None? <==> forall i :: k <= i < |Order| ==> !Present(c, Order[i])
    ensures r.Some? ==> k <= r.value < |Order| && Present(c, Order[r.value])
    ensures r.Some? ==> forall j :: k <= j < r.value ==> !Present(c, Order[j])
    decreases |Order| - k
  {
    if k == |Order| then None
    else if Present(c, Order[k]) then Some(k)
    else FirstPresent(c, k + 1)
  }

  /** When exactly one flag is present, that one runs, whatever its place in the order. */
  lemma SinglePresentChosen(c: Context, f: FlagName)
    requires Present(c, f) && forall g :: g != f ==> !Present(c, g)
    ensures Choose(c) == Some(f)
  {
    OrderComplete(f, f);
  }

  /** The chosen action, with the path for the two imports. */
  datatype Action =
    | CreateTables
    | ExportSql
    | ImportSql(path: string)
    | CreateIndices
    | ExportEs
    | ImportEs(path: string)
    | CreateAdmin

  function ActionOf(c: Context, f: FlagName): (a: Action)
    ensures f == SqlImportFlag && Name(f) in c.strings ==> a == ImportSql(c.strings[Name(f)])
    ensures f == EsImportFlag && Name(f) in c.strings ==> a == ImportEs(c.strings[Name(f)])
  {
    match f
    case SqlFlag => CreateTables
    case SqlExportFlag => ExportSql
    case SqlImportFlag => ImportSql(if Name(f) in c.strings then c.strings[Name(f)] else "")
    case EsFlag => CreateIndices
    case EsExportFlag => ExportEs
    case EsImportFlag => ImportEs(if Name(f) in c.strings then c.strings[Name(f)] else "")
    case AdminFlag => CreateAdmin
  }

  /** What an action returned: its errors (one at most, except for the SQL import) and, for the ES import, the number of records. */
  datatype ActionResult = ActionResult(errors: seq<string>, count: int)

  /** A log entry; `InfoCount` is a format with one `%d` and the number it is filled with. */
  datatype LogLine = Info(text: string) | InfoCount(format: string, count: int) | Error(text: string, err: string)

  datatype Outcome =
    /** More than one flag: exit status 1 before anything runs. */
    | TooManyFlags
    /** No known flag: "unknown command" is logged and nothing runs. */
    | UnknownCommand
    | Performed(action: Action, log: LogLine)

  /** The SQL import's errors as one text, each followed by a newline. */
  function Joined(errs: seq<string>): (s: string)
    ensures |s| >= |errs|
  {
    if errs == [] then "" else Joined(errs[..|errs| - 1]) + errs[|errs| - 1] + "\n"
  }

  /** The text of the error lines, cut at each newline. */
  function SplitLines(s: string): seq<string>
    decreases |s|
  {
    if s == [] then []
    else if '\n' !in s then [s]
    else
      var i := IndexOfNewline(s);
      [s[..i]] + SplitLines(s[i + 1..])
  }

  function IndexOfNewline(s: string): (i: nat)
    requires '\n' in s
    ensures i < |s| && s[i] == '\n' && '\n' !in s[..i]
  {
    if s[0] == '\n' then 0
    else
      assert '\n' in s[1..] by {
        var k :| 0 <= k < |s| && s[k] == '\n';
        assert s[1..][k - 1] == '\n';
      }
      var j := IndexOfNewline(s[1..]);
      assert s[..j + 1] == [s[0]] + s[1..][..j];
      j + 1
  }

  lemma {:induction false} SplitPrefix(e: string, rest: string)
    requires '\n' !in e
    ensures SplitLines(e + "\n" + rest) == [e] + SplitLines(rest)
  {
    var s := e + "\n" + rest;
    assert s[|e|] == '\n';
    var i := IndexOfNewline(s);
    assert s[..|e|] == e;
    assert i == |e|;
    assert s[i + 1..] == rest;
  }

  /** Error texts without newlines can be read back from the combined text one per line. */
  lemma {:induction false} JoinedRoundTrip(errs: seq<string>)
    requires forall i :: 0 <= i < |errs| ==> '\n' !in errs[i]
    ensures SplitLines(Joined(errs)) == errs
    decreases |errs|
  {
    if errs != [] {
      JoinedFront(errs);
      JoinedRoundTrip(errs[1..]);
      SplitPrefix(errs[0], Joined(errs[1..]));
    }
  }

  lemma {:induction false} JoinedFront(errs: seq<string>)
    requires errs != []
    ensures Joined(errs) == errs[0] + "\n" + Joined(errs[1..])
    decreases |errs|
  {
    if |errs| > 1 {
      var init, rest, last := errs[..|errs| - 1], errs[1..], errs[|errs| - 1];
      JoinedFront(init);
      assert init[1..] == rest[..|rest| - 1] && rest[|rest| - 1] == last && init[0] == errs[0];
      var head, mid, tail := errs[0] + "\n", Joined(init[1..]), last + "\n";
      Regroup(errs[0], mid, last);
      assert Joined(rest) == mid + tail;
      assert Joined(errs) == (head + mid) + tail;
    } else {
      assert errs[..0] == [];
      assert errs[1..] == [];
    }
  }

  lemma Regroup(a: string, m: string, b: string)
    ensures a + "\n" + m + b + "\n" == (a + "\n") + (m + (b + "\n"))
    ensures m + b + "\n" == m + (b + "\n")
  {
  }

  /** The loop that builds the combined error text. */
  method CombineErrors(errs: seq<string>) returns (combined: string)
    ensures combined == Joined(errs)
  {
    combined := "";
    for i := 0 to |errs|
      invariant combined == Joined(errs[..i])
    {
      assert errs[..i + 1][..i] == errs[..i];
      combined := combined + errs[i] + "\n";
    }
    assert errs[..|errs|] == errs;
  }

  /** The log line an action's result gives. */
  method Report(a: Action, res: ActionResult) returns (line: LogLine)
    ensures line.Error? <==> res.errors != []
    ensures line.Error? && a.ImportSql? ==> line.err == Joined(res.errors)
    ensures line.Error? && !a.ImportSql? ==> line.err == res.errors[0]
    ensures line.InfoCount? <==> a.ImportEs? && res.errors == []
    ensures line.InfoCount? ==> line.count == res.count
  {
    if res.errors != [] {
      var text := match a
        case CreateTables => "Failed to create table structure:"
        case ExportSql => "Failed to export SQL data:"
        case ImportSql(_) => "Failed to import SQL data:"
        case CreateIndices => "Failed to create ES indices:"
        case ExportEs => "Failed to export ES data:"
        case ImportEs(_) => "Failed to import ES data:"
        case CreateAdmin => "Failed to create an administrator:";
      if a.ImportSql? {
        var combined := CombineErrors(res.errors);
        return Error(text, combined);
      }
      return Error(text, res.errors[0]);
    }
    match a
    case CreateTables => line := Info("Successfully created table structure");
    case ExportSql => line := Info("Successfully exported SQL data");
    case ImportSql(_) => line := Info("Successfully imported SQL data");
    case CreateIndices => line := Info("Successfully created ES indices");
    case ExportEs => line := Info("Successfully exported ES data");
    case ImportEs(_) => line := InfoCount("Successfully imported ES data, totaling %d records", res.count);
    case CreateAdmin => line := Info("Successfully created an administrator");
  }

  /** `Run`: the single-flag check, then the first present flag's action. */
  method Run(c: Context, perform: Action -> ActionResult) returns (o: Outcome)
    ensures o == TooManyFlags <==> c.numFlags > 1
    ensures c.numFlags <= 1 ==> (o == UnknownCommand <==> Choose(c).None?)
    ensures o.Performed? ==> o.action == ActionOf(c, Choose(c).value)
    ensures o.Performed? ==> (o.log.Error? <==> perform(o.action).errors != [])
  {
    if c.numFlags > 1 {
      return TooManyFlags;
    }
    var chosen := Choose(c);
    if chosen.None? {
      return UnknownCommand;
    }
    var a := ActionOf(c, chosen.value);
    var line := Report(a, perform(a));
    o := Performed(a, line);
  }

  /** What the library's `app.Run` did with the arguments. */
  datatype AppRun = ParseFailed(msg: string) | HelpShown | Invoked(c: Context)

  /** Whether `InitFlag` ended the process, and with what status; `None` lets the server start. */
  datatype InitResult = InitResult(exit: Option<int>, outcome: Option<Outcome>, helpNote: bool)

  /** `InitFlag`: with no arguments the server starts; otherwise the process always exits, 1 on failure and 0 after a run. */
  method InitFlag(args: seq<string>, app: AppRun, perform: Action -> ActionResult) returns (r: InitResult)
    ensures |args| <= 1 ==> r == InitResult(None, None, false)
    ensures |args| > 1 ==> r.exit.Some?
    ensures |args| > 1 && app.ParseFailed? ==> r.exit == Some(1) && r.outcome.None?
    ensures |args| > 1 && app.HelpShown? ==> r.exit == Some(0) && r.outcome.None?
    ensures |args| > 1 && app.Invoked? ==>
      && r.outcome.Some?
      && r.exit == Some(if r.outcome.value == TooManyFlags then 1 else 0)
    ensures r.helpNote <==> |args| > 1 && !app.ParseFailed? && r.exit == Some(0) && args[1] in {"-h", "-help"}
  {
    if |args| <= 1 {
      return InitResult(None, None, false);
    }
    match app
    case ParseFailed(_) =>
      return InitResult(Some(1), None, false);
    case HelpShown =>
      return InitResult(Some(0), None, args[1] == "-h" || args[1] == "-help");
    case Invoked(c) =>
      var o := Run(c, perform);
      if o == TooManyFlags {
        return InitResult(Some(1), Some(o), false);
      }
      return InitResult(Some(0), Some(o), args[1] == "-h" || args[1] == "-help");
  }
}
