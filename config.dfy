/** Start-up configuration of the poller (main.go): `checkEnv`, which fills the
    global `cfg` from the environment or exits, and the `CWPOLL_LIMIT` value. */
module Config {
  import opened Wrappers
  import Strconv

  /** The process environment. */
  type Env = map<string, string>

  /** `os.Getenv`: "" for an unset variable. */
  function Getenv(env: Env, name: string): string {
    if name in env then env[name] else ""
  }

  /** A variable `checkEnv` insists on, with what it prints when it is empty. */
  datatype Requirement = Requirement(name: string, message: string)

  /** The required variables, in the order `checkEnv` checks them. */
  const Required: seq<Requirement> := [
    Requirement("AWS_REGION", "AWS_REGION not set"),
    Requirement("AWS_ACCESS_KEY_ID", "AWS_ACCESS_KEY_ID not set"),
    Requirement("AWS_SECRET_ACCESS_KEY", "AWS_SECRET_ACCESS_KEY"),
    Requirement("ELOG_URL", "ELOG_URL"),
    Requirement("ELOG_KEY", "ELOG_KEY")
  ]

  /** `reqs[i]` is empty in `env` and every requirement before it is set. */
  predicate IsFirstEmpty(env: Env, reqs: seq<Requirement>, i: int) {
    0 <= i < |reqs| && Getenv(env, reqs[i].name) == ""
      && forall j :: 0 <= j < i ==> Getenv(env, reqs[j].name) != ""
  }

  /** The first of `reqs` whose variable is empty in `env`, if any. */
  function FirstEmpty(env: Env, reqs: seq<Requirement>): (r: Option<Requirement>)
    ensures r.None? <==> forall i :: 0 <= i < |reqs| ==> Getenv(env, reqs[i].name) != ""
    ensures r.Some? ==> exists i :: IsFirstEmpty(env, reqs, i) && reqs[i] == r.value
  {
    if reqs == [] then None
    else if Getenv(env, reqs[0].name) == "" then Some(reqs[0])
    else
      var r := FirstEmpty(env, reqs[1..]);
      if r.Some? then
        var i :| IsFirstEmpty(env, reqs[1..], i) && reqs[1..][i] == r.value;
        assert IsFirstEmpty(env, reqs, i + 1) by {
          forall j | 0 <= j < i + 1 ensures Getenv(env, reqs[j].name) != "" {
            if j > 0 { assert reqs[j] == reqs[1..][j - 1]; }
          }
        }
        r
      else r
  }

  /** `fmt.Println(message)` followed by `os.Exit(status)`. */
  datatype Exit = Exit(status: int, message: string)

  /** The exit `checkEnv` takes on `env`, if any. */
  function ExitFor(env: Env): (r: Option<Exit>)
    ensures r.Some? ==> r.value.status == 1
  {
    match FirstEmpty(env, Required)
    case None => None
    case Some(req) => Some(Exit(1, req.message))
  }

  /** The exit decision spelled out in the order of the checks, with the
      message printed for each variable. */
  lemma ExitForInOrder(env: Env)
    ensures ExitFor(env) ==
      if Getenv(env, "AWS_REGION") == "" then Some(Exit(1, "AWS_REGION not set"))
      else if Getenv(env, "AWS_ACCESS_KEY_ID") == "" then Some(Exit(1, "AWS_ACCESS_KEY_ID not set"))
      else if Getenv(env, "AWS_SECRET_ACCESS_KEY") == "" then Some(Exit(1, "AWS_SECRET_ACCESS_KEY"))
      else if Getenv(env, "ELOG_URL") == "" then Some(Exit(1, "ELOG_URL"))
      else if Getenv(env, "ELOG_KEY") == "" then Some(Exit(1, "ELOG_KEY"))
      else None
  {
    var t1 := Required[1..];
    var t2 := t1[1..];
    var t3 := t2[1..];
    var t4 := t3[1..];
    assert t4[1..] == [];
    assert Required[0].name == "AWS_REGION" && t1[0].name == "AWS_ACCESS_KEY_ID";
    assert t2[0].name == "AWS_SECRET_ACCESS_KEY" && t3[0].name == "ELOG_URL" && t4[0].name == "ELOG_KEY";
  }

  /** `checkEnv` exits, with status 1, exactly when one of the required
      variables is empty, and prints the message of the first one. */
  lemma ExitIffRequiredMissing(env: Env)
    ensures ExitFor(env).Some? <==> exists r :: r in Required && Getenv(env, r.name) == ""
    ensures ExitFor(env).Some? ==>
      exists i :: IsFirstEmpty(env, Required, i) && ExitFor(env).value == Exit(1, Required[i].message)
  {
    if ExitFor(env).None? {
      forall r | r in Required ensures Getenv(env, r.name) != "" {
        var i :| 0 <= i < |Required| && Required[i] == r;
      }
    }
  }

  /** Only the first missing variable is reported: a missing ELOG_URL is
      reported but hidden when AWS_REGION is missing too. */
  lemma FirstMissingReported(env: Env)
    requires Getenv(env, "AWS_REGION") == ""
    ensures ExitFor(env) == Some(Exit(1, "AWS_REGION not set"))
  {
    ExitForInOrder(env);
  }

  /** The three AWS variables that are checked before `cfg` is touched. */
  predicate AwsSet(env: Env) {
    Getenv(env, "AWS_REGION") != "" && Getenv(env, "AWS_ACCESS_KEY_ID") != ""
      && Getenv(env, "AWS_SECRET_ACCESS_KEY") != ""
  }

  /** A flag is on exactly when its variable is the string "1". */
  predicate Flag(env: Env, name: string) {
    Getenv(env, name) == "1"
  }

  /** The immutable view of `cfg` that the poll loop reads. */
  datatype Settings = Settings(debug: bool, url: string, key: string, prepend: string, downgrade: bool)

  /** The global `cfg`, which `checkEnv` updates field by field. */
  class Config {
    var debug: bool
    var url: string
    var key: string
    var prepend: string
    var downgrade: bool

    /** The zero value of the Go struct. */
    constructor ()
      ensures !debug && url == "" && key == "" && prepend == "" && !downgrade
    {
      debug, url, key, prepend, downgrade := false, "", "", "", false;
    }

    /** `checkEnv`: the checks and assignments in their source order; an exit
        leaves the fields assigned before it in place. */
    method CheckEnv(env: Env) returns (exit: Option<Exit>)
      modifies this
      ensures exit == ExitFor(env)
      ensures AwsSet(env) ==> downgrade == Flag(env, "CWPOLL_DOWN")
      ensures AwsSet(env) ==>
        prepend == (if Getenv(env, "CWPOLL_PRE") != "" then Getenv(env, "CWPOLL_PRE") else old(prepend))
      ensures !AwsSet(env) ==> downgrade == old(downgrade) && prepend == old(prepend)
      ensures url == (if AwsSet(env) && Getenv(env, "ELOG_URL") != "" then Getenv(env, "ELOG_URL") else old(url))
      ensures key == (if exit.None? then Getenv(env, "ELOG_KEY") else old(key))
      ensures debug == (if exit.None? then Flag(env, "CWPOLL_DEBUG") else old(debug))
    {
      ExitForInOrder(env);
      if Getenv(env, "AWS_REGION") == "" {
        return Some(Exit(1, "AWS_REGION not set"));
      }
      if Getenv(env, "AWS_ACCESS_KEY_ID") == "" {
        return Some(Exit(1, "AWS_ACCESS_KEY_ID not set"));
      }
      if Getenv(env, "AWS_SECRET_ACCESS_KEY") == "" {
        return Some(Exit(1, "AWS_SECRET_ACCESS_KEY"));
      }
      if Getenv(env, "CWPOLL_PRE") != "" {
        prepend := Getenv(env, "CWPOLL_PRE");
      }
      if Getenv(env, "CWPOLL_DOWN") == "1" {
        downgrade := true;
      } else {
        downgrade := false;
      }
      if Getenv(env, "ELOG_URL") == "" {
        return Some(Exit(1, "ELOG_URL"));
      }
      url := Getenv(env, "ELOG_URL");
      if Getenv(env, "ELOG_KEY") == "" {
        return Some(Exit(1, "ELOG_KEY"));
      }
      key := Getenv(env, "ELOG_KEY");
      if Getenv(env, "CWPOLL_DEBUG") == "1" {
        debug := true;
      } else {
        debug := false;
      }
      return None;
    }
  }

  const DefaultLimit: Strconv.int64 := 100

  /** The fetch limit as main.go computes it: 100 when CWPOLL_LIMIT is empty,
      otherwise whatever `ParseInt` returned, error or not. */
  function Limit(env: Env): (r: Strconv.int64)
    ensures Getenv(env, "CWPOLL_LIMIT") == "" ==> r == DefaultLimit
    ensures Getenv(env, "CWPOLL_LIMIT") != "" && Strconv.ParseInt(Getenv(env, "CWPOLL_LIMIT")).err == Some(Strconv.ErrSyntax)
      ==> r == 0
    ensures Getenv(env, "CWPOLL_LIMIT") != "" && Strconv.ParseInt(Getenv(env, "CWPOLL_LIMIT")).err == Some(Strconv.ErrRange)
      ==> r == (if Getenv(env, "CWPOLL_LIMIT")[0] == '-' then -0x8000_0000_0000_0000 else 0x7fff_ffff_ffff_ffff)
  {
    var v := Getenv(env, "CWPOLL_LIMIT");
    if v == "" then DefaultLimit else Strconv.ParseInt(v).value
  }

  /** The limit with the evident intent of the fallback: 100 whenever
      CWPOLL_LIMIT is empty or does not parse. */
  function LimitCorrected(env: Env): (r: Strconv.int64)
    ensures r == DefaultLimit || Strconv.ParseInt(Getenv(env, "CWPOLL_LIMIT")) == Strconv.IntResult(r, None)
    ensures Getenv(env, "CWPOLL_LIMIT") == "" || Strconv.ParseInt(Getenv(env, "CWPOLL_LIMIT")).err.Some?
      ==> r == DefaultLimit
  {
    var v := Getenv(env, "CWPOLL_LIMIT");
    if v == "" then DefaultLimit
    else
      var p := Strconv.ParseInt(v);
      if p.err.Some? then DefaultLimit else p.value
  }

  /** A CWPOLL_LIMIT written as a decimal int64 is taken as that number (by
      both definitions). */
  lemma LimitOfDecimal(env: Env, n: Strconv.int64)
    requires Getenv(env, "CWPOLL_LIMIT") == Strconv.FormatInt(n as int)
    ensures Limit(env) == n && LimitCorrected(env) == n
  {
    Strconv.ParseFormatInt(n);
  }

  /** The fallback of 100 is lost: an unparsable CWPOLL_LIMIT gives 0. */
  lemma LimitDropsFallback()
    ensures Limit(map["CWPOLL_LIMIT" := "abc"]) == 0
    ensures LimitCorrected(map["CWPOLL_LIMIT" := "abc"]) == DefaultLimit
  {
    var env := map["CWPOLL_LIMIT" := "abc"];
    assert Getenv(env, "CWPOLL_LIMIT") == "abc";
    assert Strconv.ParseUint("abc") == Strconv.UintResult(0, Some(Strconv.ErrSyntax));
  }

  /** The corrected limit is 100 unless CWPOLL_LIMIT parses without error, and
      then it agrees with the limit as written. */
  lemma LimitCorrectedFallsBack(env: Env)
    ensures Getenv(env, "CWPOLL_LIMIT") == "" ==> LimitCorrected(env) == DefaultLimit == Limit(env)
    ensures Getenv(env, "CWPOLL_LIMIT") != "" && Strconv.ParseInt(Getenv(env, "CWPOLL_LIMIT")).err.Some?
      ==> LimitCorrected(env) == DefaultLimit
    ensures Getenv(env, "CWPOLL_LIMIT") != "" && Strconv.ParseInt(Getenv(env, "CWPOLL_LIMIT")).err.None?
      ==> LimitCorrected(env) == Limit(env)
  {
  }
}
