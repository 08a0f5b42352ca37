/**
  The deterministic part of launch_flatten.py: reading back the parameters a
  prepared substack directory stores, checking them against the directory
  named on the command line, and building the `bsub` submission that runs the
  flattening script on the LSF cluster, together with the two ways the
  argument list is joined (one line per argument for display, single spaces
  for the shell).

  The environment is a parameter: `resolve` stands for `os.path.abspath`,
  `readJson` for opening and decoding substack-params.json (None when that
  fails), `pathExists` for `os.path.exists` and `user` for the USER variable.
*/
module LaunchFlatten {
  import opened Wrappers
  import PrepareSubstackDir

  /** The cluster script that flattens a substack. */
  const FLATTEN_SCRIPT: string :=
    "/groups/flyem/data/alignment/facefinder/src" + "/hxadjustheightsurf/share/scripts" + "/clusterLSFFlattenTwoSidesNoWeka.sh"

  /** The account the launcher expects to be run from. */
  const FLYEM_USER: string := "flyem"

  /** Separator of the displayed command: a continuation backslash, a line break and a two-space indent. */
  const PRETTY_SEP: string := " \\\n  "

  /** The keys read from substack-params.json, in the order they are looked up. */
  const PARAM_KEYS: seq<string> := ["substack_base_dir", "substack_name", "tab_name", "bill_to"]

  /** The four stored parameters the launcher uses. */
  datatype StoredParams = StoredParams(substackBaseDir: string, substackName: string, tabName: string, billTo: string)

  datatype LaunchError =
    | ParamsUnreadable(path: string)                 // open() or json.load fails
    | MissingKey(key: string)                        // KeyError on the parameter record
    | BaseDirMismatch(stored: string, given: string) // AssertionError: the record belongs elsewhere
    | MissingParamScript(path: string)               // AssertionError: flatten/flattenParams.sh is absent
    | UserUnset                                      // KeyError on os.environ['USER']

  /**
    What is handed to the shell and shown to the user: the argument list, its
    display form, the command line, and whether the "not running as flyem"
    warning is issued.
  */
  datatype Submission = Submission(args: seq<string>, pretty: string, command: string, warnNotFlyem: bool)

  // ----- Paths -----

  function ParamsPath(baseDir: string): string {
    baseDir + "/substack-params.json"
  }

  /** The parameter script the cluster job reads: `{base}/flatten/flattenParams.sh`. */
  function ParamScriptPath(baseDir: string): string {
    baseDir + "/flatten/flattenParams.sh"
  }

  /** The job's log file: `{base}/logs/flatten.log`. */
  function LogPath(baseDir: string): string {
    baseDir + "/logs/flatten.log"
  }

  /** `if args.email_to:` holds for a present, non-empty address. */
  predicate EmailGiven(email: Option<string>) {
    email.Some? && email.value != ""
  }

  // ----- Reading and checking the stored parameters -----

  /** Looking up `keys` in order: all their values, or a KeyError for the first one missing. */
  function Lookup(json: map<string, string>, keys: seq<string>): (r: Result<seq<string>, LaunchError>)
    ensures r.Ok? <==> forall i :: 0 <= i < |keys| ==> keys[i] in json
    ensures r.Ok? ==> |r.value| == |keys| && forall i :: 0 <= i < |keys| ==> r.value[i] == json[keys[i]]
    ensures r.Err? ==> exists i :: 0 <= i < |keys| && r.error == MissingKey(keys[i]) && keys[i] !in json
                                   && forall j :: 0 <= j < i ==> keys[j] in json
  {
    if keys == [] then Ok([])
    else if keys[0] !in json then Err(MissingKey(keys[0]))
    else
      match Lookup(json, keys[1..])
      case Err(e) =>
        var i :| 0 <= i < |keys[1..]| && e == MissingKey(keys[1..][i]) && keys[1..][i] !in json
                 && forall j :: 0 <= j < i ==> keys[1..][j] in json;
        assert forall j :: 0 <= j < i + 1 ==> keys[j] in json by {
          forall j | 0 <= j < i + 1 ensures keys[j] in json {
            if j > 0 { assert keys[j] == keys[1..][j - 1]; }
          }
        }
        Err(e)
      case Ok(vs) => Ok([json[keys[0]]] + vs)
  }

  /** The four lookups of launch_flatten.py, in their order. */
  function ReadParams(json: map<string, string>): (r: Result<StoredParams, LaunchError>)
    ensures r.Ok? <==> forall i :: 0 <= i < |PARAM_KEYS| ==> PARAM_KEYS[i] in json
    ensures r.Ok? ==> r.value == StoredParams(json[PARAM_KEYS[0]], json[PARAM_KEYS[1]],
                                              json[PARAM_KEYS[2]], json[PARAM_KEYS[3]])
    ensures r.Err? ==> exists i :: 0 <= i < |PARAM_KEYS| && r.error == MissingKey(PARAM_KEYS[i]) && PARAM_KEYS[i] !in json
                                   && forall j :: 0 <= j < i ==> PARAM_KEYS[j] in json
  {
    match Lookup(json, PARAM_KEYS)
    case Err(e) => Err(e)
    case Ok(vs) => Ok(StoredParams(vs[0], vs[1], vs[2], vs[3]))
  }

  /**
    The checks before anything is built: the record must be readable, hold
    the four keys, name the resolved directory as its base directory, and
    that directory must hold the parameter script.
  */
  function Validate(dir: string, json: Option<map<string, string>>, pathExists: string -> bool)
    : (r: Result<StoredParams, LaunchError>)
    ensures r.Ok? <==>
      && json.Some? && ReadParams(json.value).Ok?
      && ReadParams(json.value).value.substackBaseDir == dir
      && pathExists(ParamScriptPath(dir))
    ensures r.Ok? ==> r == ReadParams(json.value)
    ensures r.Err? && r.error.BaseDirMismatch? ==> r.error.stored != dir && r.error.given == dir
    // Which check fails first decides the error.
    ensures json.None? ==> r == Err(ParamsUnreadable(ParamsPath(dir)))
    ensures json.Some? && ReadParams(json.value).Err? ==> r == ReadParams(json.value)
    ensures json.Some? && ReadParams(json.value).Ok? && json.value["substack_base_dir"] != dir ==>
      r == Err(BaseDirMismatch(json.value["substack_base_dir"], dir))
    ensures json.Some? && ReadParams(json.value).Ok? && json.value["substack_base_dir"] == dir
            && !pathExists(ParamScriptPath(dir)) ==>
      r == Err(MissingParamScript(ParamScriptPath(dir)))
  {
    match json
    case None => Err(ParamsUnreadable(ParamsPath(dir)))
    case Some(j) =>
      match ReadParams(j)
      case Err(e) => Err(e)
      case Ok(p) =>
        if p.substackBaseDir != dir then Err(BaseDirMismatch(p.substackBaseDir, dir))
        else if !pathExists(ParamScriptPath(p.substackBaseDir)) then
          Err(MissingParamScript(ParamScriptPath(p.substackBaseDir)))
        else Ok(p)
  }

  /** The record a prepared substack writes reads back as its own name, base directory, tab and billing project. */
  lemma PreparedParamsReadBack(p: PrepareSubstackDir.SubstackParams)
    ensures ReadParams(PrepareSubstackDir.ParamsJson(p))
         == Ok(StoredParams(p.substackBaseDir, p.substackName, p.tabName, p.billTo))
  {
    var json := PrepareSubstackDir.ParamsJson(p);
    assert forall i :: 0 <= i < |PARAM_KEYS| ==> PARAM_KEYS[i] in json;
  }

  /**
    Launching on the directory a substack was prepared in passes the checks
    once its parameter script exists; launching on any other directory with
    that record is refused as a mismatch.
  */
  lemma PreparedDirValidates(p: PrepareSubstackDir.SubstackParams, dir: string, pathExists: string -> bool)
    ensures dir == p.substackBaseDir && pathExists(ParamScriptPath(dir)) ==>
      Validate(dir, Some(PrepareSubstackDir.ParamsJson(p)), pathExists)
        == Ok(StoredParams(p.substackBaseDir, p.substackName, p.tabName, p.billTo))
    ensures dir != p.substackBaseDir ==>
      Validate(dir, Some(PrepareSubstackDir.ParamsJson(p)), pathExists) == Err(BaseDirMismatch(p.substackBaseDir, dir))
  {
    PreparedParamsReadBack(p);
  }

  // ----- The bsub argument list -----

  /** The argument list launch_flatten.py builds, element by element. */
  predicate IsBsubArgs(args: seq<string>, p: StoredParams, email: Option<string>) {
    && |args| == (if EmailGiven(email) then 11 else 8)
    && args[0] == "bsub"
    && args[1] == "-n 1"
    && args[2] == "-J flatten_" + p.substackName
    && args[3] == "-env \"PARAM_PATH=" + ParamScriptPath(p.substackBaseDir) + "\""
    && args[4] == "-P " + p.billTo
    && args[5] == "-g \"/" + p.billTo + "/flatten/" + p.tabName + "\""
    && args[6] == "-o " + LogPath(p.substackBaseDir)
    && (EmailGiven(email) ==> args[7] == "-u " + email.value && args[8] == "-N" && args[9] == "-B")
    && args[|args| - 1] == FLATTEN_SCRIPT + " " + ParamScriptPath(p.substackBaseDir)
  }

  /** The `bsub_args += [...]` sequence of launch_flatten.py. */
  method BuildBsubArgs(p: StoredParams, email: Option<string>) returns (args: seq<string>)
    ensures IsBsubArgs(args, p, email)
  {
    var paramPath := ParamScriptPath(p.substackBaseDir);
    var logPath := LogPath(p.substackBaseDir);
    args := ["bsub"];
    args := args + ["-n 1"];
    args := args + ["-J flatten_" + p.substackName];
    args := args + ["-env \"PARAM_PATH=" + paramPath + "\""];
    args := args + ["-P " + p.billTo];
    args := args + ["-g \"/" + p.billTo + "/flatten/" + p.tabName + "\""];
    args := args + ["-o " + logPath];
    if EmailGiven(email) {
      args := args + ["-u " + email.value];
      args := args + ["-N"];
      args := args + ["-B"];
    }
    args := args + [FLATTEN_SCRIPT + " " + paramPath];
  }

  /**
    The notification flags appear exactly when an address is given: no other
    argument can be "-N" or "-B", and "-u" is followed by the address.
  */
  lemma EmailFlagsIff(args: seq<string>, p: StoredParams, email: Option<string>)
    requires IsBsubArgs(args, p, email)
    ensures "-N" in args <==> EmailGiven(email)
    ensures "-B" in args <==> EmailGiven(email)
    ensures (exists i :: 0 <= i < |args| && |args[i]| >= 3 && args[i][..3] == "-u ") <==> EmailGiven(email)
  {
    var last := |args| - 1;
    assert FLATTEN_SCRIPT[1] == 'g';
    assert |args[last]| > 3;
    assert args[last][..3] == FLATTEN_SCRIPT[..3];
    forall i | 0 <= i < |args| && !(EmailGiven(email) && 7 <= i < 10)
      ensures args[i] != "-N" && args[i] != "-B" && (|args[i]| >= 3 ==> args[i][..3] != "-u ")
    {
      var head: string :=
        if i == 0 then "bsub" else if i == 1 then "-n 1" else if i == 2 then "-J flatten_"
        else if i == 3 then "-env \"PARAM_PATH=" else if i == 4 then "-P " else if i == 5 then "-g \"/"
        else if i == 6 then "-o " else FLATTEN_SCRIPT;
      assert |head| >= 3 && head <= args[i];
      assert args[i][1] == head[1] != 'u';
      assert args[i][..3][1] == args[i][1];
    }
    if EmailGiven(email) {
      assert args[7][..3] == "-u ";
    }
  }

  // ----- Joining -----

  /** `sep.join(xs)` */
  function Join(sep: string, xs: seq<string>): string {
    if xs == [] then ""
    else if |xs| == 1 then xs[0]
    else xs[0] + sep + Join(sep, xs[1..])
  }

  /** `s.split(c)`: the pieces between occurrences of `c`; always at least one piece. */
  function Split(s: string, c: char): (parts: seq<string>)
    ensures |parts| >= 1
    ensures forall i :: 0 <= i < |parts| ==> c !in parts[i]
  {
    if s == [] then [""]
    else if s[0] == c then [""] + Split(s[1..], c)
    else
      var rest := Split(s[1..], c);
      [[s[0]] + rest[0]] + rest[1..]
  }

  /** Text without `c` in front of the rest extends the first piece of the rest. */
  lemma {:induction false} SplitPrefix(x: string, t: string, c: char)
    requires c !in x
    ensures Split(x + t, c) == [x + Split(t, c)[0]] + Split(t, c)[1..]
    decreases |x|
  {
    if x != [] {
      assert (x + t)[1..] == x[1..] + t;
      SplitPrefix(x[1..], t, c);
      assert [x[0]] + (x[1..] + Split(t, c)[0]) == x + Split(t, c)[0];
    } else {
      var parts := Split(t, c);
      assert x + t == t;
      assert parts == [parts[0]] + parts[1..];
      assert x + parts[0] == parts[0];
    }
  }

  /** Splitting at a separator that occurs in no piece gives the pieces back. */
  lemma {:induction false} SplitJoin(xs: seq<string>, c: char)
    requires |xs| >= 1
    requires forall i :: 0 <= i < |xs| ==> c !in xs[i]
    ensures Split(Join([c], xs), c) == xs
    decreases |xs|
  {
    if |xs| == 1 {
      SplitPrefix(xs[0], "", c);
      assert xs[0] + "" == xs[0];
    } else {
      var rest := Join([c], xs[1..]);
      SplitJoin(xs[1..], c);
      assert Join([c], xs) == xs[0] + ([c] + rest);
      SplitPrefix(xs[0], [c] + rest, c);
      assert ([c] + rest)[1..] == rest;
      assert Split([c] + rest, c) == [""] + xs[1..];
      assert xs[0] + "" == xs[0];
    }
  }

  /**
    The display lines of a list joined with `pre + [c] + post`: every line
    but the first starts with `post`, every line but the last ends with `pre`.
  */
  function Framed(xs: seq<string>, pre: string, post: string): (lines: seq<string>)
    ensures |lines| == |xs|
  {
    seq(|xs|, i requires 0 <= i < |xs| =>
      (if i > 0 then post else "") + xs[i] + (if i < |xs| - 1 then pre else ""))
  }

  /** Framing adds no character that neither the pieces nor the frame hold. */
  lemma FramedAvoids(xs: seq<string>, pre: string, post: string, c: char)
    requires c !in pre && c !in post
    requires forall i :: 0 <= i < |xs| ==> c !in xs[i]
    ensures forall i :: 0 <= i < |xs| ==> c !in Framed(xs, pre, post)[i]
  {
    var lines := Framed(xs, pre, post);
    forall i | 0 <= i < |xs| ensures c !in lines[i] {
      var front, back := if i > 0 then post else "", if i < |xs| - 1 then pre else "";
      assert lines[i] == front + xs[i] + back;
    }
  }

  /** Prepending text to a joined list prepends it to the first piece. */
  lemma JoinPrependFirst(x: string, sep: string, ys: seq<string>)
    requires |ys| >= 1
    ensures x + Join(sep, ys) == Join(sep, [x + ys[0]] + ys[1..])
  {
    var zs := [x + ys[0]] + ys[1..];
    assert zs[1..] == ys[1..];
    if |ys| > 1 {
      assert x + (ys[0] + sep + Join(sep, ys[1..])) == (x + ys[0]) + sep + Join(sep, ys[1..]);
    }
  }

  /** Joining with `pre + [c] + post` is joining the framed lines with `c`. */
  lemma {:induction false} JoinFramed(xs: seq<string>, pre: string, c: char, post: string)
    requires |xs| >= 1
    ensures Join(pre + [c] + post, xs) == Join([c], Framed(xs, pre, post))
    decreases |xs|
  {
    var sep := pre + [c] + post;
    var lines := Framed(xs, pre, post);
    if |xs| == 1 {
      assert lines[0] == "" + xs[0] + "";
    } else {
      var tail := Framed(xs[1..], pre, post);
      JoinFramed(xs[1..], pre, c, post);
      JoinPrependFirst(post, [c], tail);
      assert lines[0] == xs[0] + pre;
      assert lines[1..] == [post + tail[0]] + tail[1..] by {
        forall k | 0 <= k < |lines| - 1
          ensures lines[1..][k] == ([post + tail[0]] + tail[1..])[k]
        {
          if k == 0 {
            assert tail[0] == "" + xs[1..][0] + (if 0 < |xs| - 2 then pre else "");
          }
        }
      }
      calc {
        Join(sep, xs);
        xs[0] + sep + Join(sep, xs[1..]);
        (xs[0] + pre) + [c] + (post + Join([c], tail));
        lines[0] + [c] + Join([c], lines[1..]);
      }
    }
  }

  /**
    The displayed command shows one argument per line: the lines are the
    arguments, each but the last followed by " \", each but the first
    indented by two spaces.
  */
  lemma PrettyLines(args: seq<string>)
    requires |args| >= 1
    requires forall i :: 0 <= i < |args| ==> '\n' !in args[i]
    ensures Split(Join(PRETTY_SEP, args), '\n') == Framed(args, " \\", "  ")
  {
    assert PRETTY_SEP == " \\" + ['\n'] + "  ";
    JoinFramed(args, " \\", '\n', "  ");
    FramedAvoids(args, " \\", "  ", '\n');
    SplitJoin(Framed(args, " \\", "  "), '\n');
  }

  // ----- The whole launch -----

  /**
    `main()` of launch_flatten.py once the arguments are parsed, up to the
    submission: the checks in their order, the warning decision, the
    argument list and its two joined forms.
  */
  method Launch(baseDirArg: string, emailTo: Option<string>, resolve: string -> string,
                readJson: string -> Option<map<string, string>>, pathExists: string -> bool, user: Option<string>)
    returns (r: Result<Submission, LaunchError>)
    ensures var dir := resolve(baseDirArg);
      match Validate(dir, readJson(ParamsPath(dir)), pathExists)
      case Err(e) => r == Err(e)
      case Ok(p) =>
        if user.None? then r == Err(UserUnset)
        else
          && r.Ok?
          && IsBsubArgs(r.value.args, p, emailTo)
          && r.value.pretty == Join(PRETTY_SEP, r.value.args)
          && r.value.command == Join(" ", r.value.args)
          && r.value.warnNotFlyem == (user.value != FLYEM_USER)
  {
    var dir := resolve(baseDirArg);
    var checked := Validate(dir, readJson(ParamsPath(dir)), pathExists);
    if checked.Err? {
      return Err(checked.error);
    }
    var p := checked.value;
    if user.None? {
      return Err(UserUnset);
    }
    var warn := user.value != FLYEM_USER;
    var args := BuildBsubArgs(p, emailTo);
    r := Ok(Submission(args, Join(PRETTY_SEP, args), Join(" ", args), warn));
  }
}
