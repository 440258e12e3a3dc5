/** What both revisions of the configuration reader share: the snapshot of an `XRayConfig`,
    the reasons a config is refused, the generic search and client collection both walk
    the inbounds with, and `AppConfig` with its validation. */
module ConfigCommon {
  import opened Wrappers
  import opened Users
  import Logging

  /** The public fields of `XRayConfig` after a successful `parseFromFile`. */
  datatype Settings = Settings(apiAddress: string, apiPort: int, accessLogPath: string,
                               users: map<string, User>)

  /** Why a config is refused; each stands for one `runtime_error` thrown while reading it. */
  datatype ConfigError =
    | NotAnObject
    | MissingStatsService
    | MissingInbounds
    | MissingDokodemoDoor
    | InvalidPort

  /** The record stored for a configured client: id and email, every other field at its default. */
  function ConfigUser(email: string, id: string): User {
    DefaultUser.(id := id, email := email)
  }

  /** The first position at or after `from` whose element satisfies `p`. */
  function FirstIndex<T>(s: seq<T>, p: T -> bool, from: nat): (r: Option<nat>)
    decreases |s| - from
    ensures r.Some? ==> from <= r.value < |s| && p(s[r.value])
                        && forall k :: from <= k < r.value ==> !p(s[k])
    ensures r.None? ==> forall k :: from <= k < |s| ==> !p(s[k])
  {
    if from >= |s| then None
    else if p(s[from]) then Some(from)
    else FirstIndex(s, p, from + 1)
  }

  /** An index where `p` holds, with no such index before it from `from`, is the one found. */
  lemma {:induction false} FirstIndexIs<T>(s: seq<T>, p: T -> bool, from: nat, k: nat)
    requires from <= k < |s| && p(s[k])
    requires forall j :: from <= j < k ==> !p(s[j])
    decreases k - from
    ensures FirstIndex(s, p, from) == Some(k)
  {
    if from < k {
      FirstIndexIs(s, p, from + 1, k);
    }
  }

  /** `users[user.email] = user` for every client, in order, that `entry` accepts. */
  function CollectUsers<T>(cs: seq<T>, entry: T -> Option<User>): map<string, User> {
    if cs == [] then map[]
    else
      var m := CollectUsers(cs[..|cs| - 1], entry);
      match entry(cs[|cs| - 1])
      case None => m
      case Some(u) => m[u.email := u]
  }

  /** Every collected record is stored under its own email and is what `entry` made of some
      client. */
  lemma {:induction false} CollectUsersOrigin<T>(cs: seq<T>, entry: T -> Option<User>)
    ensures KeyedByEmail(CollectUsers(cs, entry))
    ensures forall e :: e in CollectUsers(cs, entry) ==>
              exists k :: 0 <= k < |cs| && entry(cs[k]) == Some(CollectUsers(cs, entry)[e])
  {
    if cs != [] {
      var init := cs[..|cs| - 1];
      CollectUsersOrigin(init, entry);
      var m := CollectUsers(init, entry);
      forall e | e in CollectUsers(cs, entry)
        ensures exists k :: 0 <= k < |cs| && entry(cs[k]) == Some(CollectUsers(cs, entry)[e])
      {
        if entry(cs[|cs| - 1]).Some? && e == entry(cs[|cs| - 1]).value.email {
          assert entry(cs[|cs| - 1]) == Some(CollectUsers(cs, entry)[e]);
        } else {
          var k :| 0 <= k < |init| && entry(init[k]) == Some(m[e]);
          assert init[k] == cs[k];
        }
      }
    }
  }

  /** An email is configured exactly when some accepted client carries it. */
  lemma {:induction false} CollectUsersMembership<T>(cs: seq<T>, entry: T -> Option<User>, e: string)
    ensures e in CollectUsers(cs, entry) <==>
            exists k :: 0 <= k < |cs| && entry(cs[k]).Some? && entry(cs[k]).value.email == e
  {
    if cs != [] {
      var init := cs[..|cs| - 1];
      CollectUsersMembership(init, entry, e);
      if e in CollectUsers(init, entry) {
        var k :| 0 <= k < |init| && entry(init[k]).Some? && entry(init[k]).value.email == e;
        assert init[k] == cs[k];
      }
      if exists k :: 0 <= k < |cs| && entry(cs[k]).Some? && entry(cs[k]).value.email == e {
        var k :| 0 <= k < |cs| && entry(cs[k]).Some? && entry(cs[k]).value.email == e;
        if k < |init| {
          assert init[k] == cs[k];
        }
      }
    }
  }

  /** When an email appears on several clients, the last one is kept. */
  lemma {:induction false} CollectUsersLastWins<T>(cs: seq<T>, entry: T -> Option<User>, k: nat)
    requires k < |cs| && entry(cs[k]).Some?
    requires forall j :: k < j < |cs| ==>
               entry(cs[j]).None? || entry(cs[j]).value.email != entry(cs[k]).value.email
    ensures entry(cs[k]).value.email in CollectUsers(cs, entry)
    ensures CollectUsers(cs, entry)[entry(cs[k]).value.email] == entry(cs[k]).value
  {
    if k < |cs| - 1 {
      var init := cs[..|cs| - 1];
      assert init[k] == cs[k];
      forall j | k < j < |init|
        ensures entry(init[j]).None? || entry(init[j]).value.email != entry(init[k]).value.email
      {
        assert init[j] == cs[j];
      }
      CollectUsersLastWins(init, entry, k);
    }
  }

  /** Collecting two runs of clients one after the other: the later run overrides. */
  lemma {:induction false} CollectUsersAppend<T>(xs: seq<T>, ys: seq<T>, entry: T -> Option<User>)
    ensures CollectUsers(xs + ys, entry) == CollectUsers(xs, entry) + CollectUsers(ys, entry)
  {
    if ys == [] {
      assert xs + ys == xs;
    } else {
      var ys' := ys[..|ys| - 1];
      assert (xs + ys)[..|xs + ys| - 1] == xs + ys';
      assert (xs + ys)[|xs + ys| - 1] == ys[|ys| - 1];
      CollectUsersAppend(xs, ys', entry);
    }
  }

  /** One more client, the `k`-th of a run that follows `base`: `table` holds `start` and
      the clients before it, and `u` is what `entry` makes of it. */
  lemma CollectUsersStep<T>(start: map<string, User>, base: seq<T>, cs: seq<T>, k: nat,
                            entry: T -> Option<User>, table: map<string, User>, u: Option<User>)
    requires k < |cs| && u == entry(cs[k])
    requires table == start + CollectUsers(base + cs[..k], entry)
    ensures (if u.Some? then table[u.value.email := u.value] else table) ==
            start + CollectUsers(base + cs[..k + 1], entry)
  {
    var xs := base + cs[..k];
    assert base + cs[..k + 1] == xs + [cs[k]];
    assert (xs + [cs[k]])[..|xs|] == xs;
    assert (xs + [cs[k]])[|xs|] == cs[k];
  }

  /** Adding to an empty table gives the added entries. */
  lemma EmptyUnion(m: map<string, User>)
    ensures map[] + m == m
  {
  }

  /** Why `AppConfig::validate` refuses the command line, in the order it checks. */
  datatype AppConfigError =
    | EmptyConfigPath
    | NonPositiveInterval
    | MissingChannel
    | MissingToken
    | InvalidLogLevel(level: string)

  /** The command-line settings, with the fields and defaults of src/Config.h; the earlier
      revision's header is not part of this model and is taken to declare the same. */
  datatype AppConfig = AppConfig(xrayConfigPath: string, logLevelStr: string, logFilePath: string,
                                 interval: int, telegramToken: string, telegramChannel: string)
  {
    /** `AppConfig::validate`: a Telegram token and channel come together, the level is one the
        logger knows, and the first broken rule is the one reported. */
    function Validate(): (r: Outcome<AppConfigError>)
      ensures r.Pass? <==>
                && xrayConfigPath != "" && interval > 0
                && (telegramToken == "" <==> telegramChannel == "")
                && Logging.StringToLevel(logLevelStr).Success?
      ensures r == Fail(EmptyConfigPath) <==> xrayConfigPath == ""
      ensures r == Fail(NonPositiveInterval) <==> xrayConfigPath != "" && interval <= 0
      ensures r == Fail(MissingChannel) <==>
                xrayConfigPath != "" && interval > 0 && telegramToken != "" && telegramChannel == ""
      ensures r == Fail(MissingToken) <==>
                xrayConfigPath != "" && interval > 0 && telegramToken == "" && telegramChannel != ""
      ensures (r.Fail? && r.error.InvalidLogLevel?) <==>
                && xrayConfigPath != "" && interval > 0
                && (telegramToken == "" <==> telegramChannel == "")
                && Logging.StringToLevel(logLevelStr).Failure?
      ensures r.Fail? && r.error.InvalidLogLevel? ==> r.error.level == logLevelStr
    {
      if xrayConfigPath == "" then Fail(EmptyConfigPath)
      else if interval <= 0 then Fail(NonPositiveInterval)
      else if telegramToken != "" && telegramChannel == "" then Fail(MissingChannel)
      else if telegramToken == "" && telegramChannel != "" then Fail(MissingToken)
      else if logLevelStr != "DEBUG" && logLevelStr != "INFO" &&
              logLevelStr != "WARNING" && logLevelStr != "ERROR" then Fail(InvalidLogLevel(logLevelStr))
      else Pass
    }
  }

  /** The declared defaults. */
  const DefaultAppConfig := AppConfig("/usr/local/etc/xray/config.json", "INFO", "", 10, "", "")

  /** Running with no options at all is accepted, with Telegram off and level INFO. */
  lemma DefaultsValid()
    ensures DefaultAppConfig.Validate().Pass?
    ensures Logging.StringToLevel(DefaultAppConfig.logLevelStr) == Success(Logging.Info)
  {
  }
}
