/** Config.cpp (the earlier revision): `XRayConfig::parseFromFile` over the
    `boost::property_tree` that `read_json` builds. Reading and parsing the file are not part
    of this model; it starts from the tree. */
module PtreeConfig {
  import opened Wrappers
  import opened Text
  import opened Users
  import opened ConfigCommon

  /** A `ptree` node: its data text and its ordered (key, child) list. `read_json` makes each
      object member a child keyed by the member name, each array element a child keyed by the
      empty string, and stores every scalar, numbers included, as the data text. */
  datatype PTree = PTree(data: string, children: seq<(string, PTree)>)

  /** `find(key)`: the first child with that key; nothing when no child has it. */
  function ChildNamed(t: PTree, key: string): (r: Option<PTree>)
    ensures r.None? <==> forall k :: 0 <= k < |t.children| ==> t.children[k].0 != key
    ensures r.Some? ==>
              exists k :: 0 <= k < |t.children| && t.children[k] == (key, r.value)
                          && forall j :: 0 <= j < k ==> t.children[j].0 != key
  {
    match FirstIndex(t.children, (c: (string, PTree)) => c.0 == key, 0)
    case None => None
    case Some(k) =>
      assert t.children[k] == (key, t.children[k].1);
      Some(t.children[k].1)
  }

  /** `get_child_optional` on a dotted path, given here as its list of keys. */
  function GetChild(t: PTree, path: seq<string>): (r: Option<PTree>)
    decreases |path|
    ensures path == [] ==> r == Some(t)
  {
    if path == [] then Some(t)
    else
      match ChildNamed(t, path[0])
      case None => None
      case Some(c) => GetChild(c, path[1..])
  }

  /** `get_optional<std::string>`: the text of the node at `path`, when there is one. */
  function GetOptional(t: PTree, path: seq<string>): (r: Option<string>)
    ensures r.Some? <==> GetChild(t, path).Some?
    ensures r.Some? ==> r.value == GetChild(t, path).value.data
  {
    match GetChild(t, path)
    case None => None
    case Some(c) => Some(c.data)
  }

  /** `get(path, default)` for text. */
  function Get(t: PTree, path: seq<string>, default: string): (r: string)
    ensures GetChild(t, path).None? ==> r == default
    ensures GetChild(t, path).Some? ==> r == GetChild(t, path).value.data
  {
    GetOptional(t, path).GetOr(default)
  }

  const Int32Min: int := -0x8000_0000
  const Int32Max: int := 0x7FFF_FFFF

  predicate AllDigits(s: string) {
    forall k :: 0 <= k < |s| ==> IsDigit(s[k])
  }

  /** The stream translation behind `get<int>`: an optional sign, then decimal digits, in the
      range of a 32-bit `int`. */
  function ParseInt(s: string): (r: Option<int>)
    ensures r.Some? ==> Int32Min <= r.value <= Int32Max
    ensures s == [] ==> r.None?
    ensures r.Some? ==> AllDigits(s) || ((s[0] == '-' || s[0] == '+') && |s| > 1 && AllDigits(s[1..]))
    ensures s != [] && AllDigits(s) && DecimalValue(s) <= Int32Max ==> r == Some(DecimalValue(s))
  {
    var signed := |s| > 0 && (s[0] == '-' || s[0] == '+');
    var digits := if signed then s[1..] else s;
    if digits == [] || !AllDigits(digits) then None
    else
      var v: int := if signed && s[0] == '-' then 0 - (DecimalValue(digits) as int) else DecimalValue(digits);
      if v < Int32Min || v > Int32Max then None else Some(v)
  }

  /** How `read_json` stores a JSON integer: its decimal text. */
  function ShowInt(n: int): string {
    if n < 0 then "-" + DecimalDigits(-n) else DecimalDigits(n)
  }

  /** Every `int` written as a JSON number reads back unchanged. */
  lemma ParseIntShow(n: int)
    requires Int32Min <= n <= Int32Max
    ensures ParseInt(ShowInt(n)) == Some(n)
  {
    var s := ShowInt(n);
    if n < 0 {
      var d := DecimalDigits(-n);
      assert s == "-" + d;
      assert s[0] == '-' && s[1..] == d;
      DecimalRoundTrip(-n);
    } else {
      var d := DecimalDigits(n);
      assert s == d && IsDigit(s[0]);
      DecimalRoundTrip(n);
    }
  }

  /** `get<int>(path, default)`: the default when the node is missing or its text is not an `int`. */
  function GetInt(t: PTree, path: seq<string>, default: int): (r: int)
    ensures GetChild(t, path).None? ==> r == default
    ensures GetChild(t, path).Some? && ParseInt(GetChild(t, path).value.data).None? ==> r == default
    ensures GetChild(t, path).Some? && ParseInt(GetChild(t, path).value.data).Some? ==>
              r == ParseInt(GetChild(t, path).value.data).value
  {
    match GetChild(t, path)
    case None => default
    case Some(c) => ParseInt(c.data).GetOr(default)
  }

  /** The check as written: `api.services` has a child KEYED "StatsService". */
  predicate KeyedStatsService(pt: PTree): (r: bool)
    ensures r <==> GetChild(pt, ["api", "services"]).Some?
                   && exists k :: 0 <= k < |GetChild(pt, ["api", "services"]).value.children|
                                  && GetChild(pt, ["api", "services"]).value.children[k].0 == "StatsService"
  {
    match GetChild(pt, ["api", "services"])
    case None => false
    case Some(services) => ChildNamed(services, "StatsService").Some?
  }

  /** `api.services` has an element whose text is "StatsService", which is what the
      boost::json revision checks. */
  predicate ListsStatsService(pt: PTree) {
    match GetChild(pt, ["api", "services"])
    case None => false
    case Some(services) => exists k :: 0 <= k < |services.children| && services.children[k].1.data == "StatsService"
  }

  /** The check as evidently intended, and the one the rest of this module uses: a services
      list holding "StatsService" passes, and so does everything the check as written lets
      through. */
  predicate FindsStatsService(pt: PTree) {
    KeyedStatsService(pt) || ListsStatsService(pt)
  }

  /** `"services": ["StatsService"]`, the form XRay's own configs use, as `read_json` stores it:
      the check as written refuses it, the intended check accepts it. */
  lemma StatsServiceListRejected(pt: PTree)
    requires pt == PTree("", [("api", PTree("", [("services", PTree("", [("", PTree("StatsService", []))]))]))])
    ensures !KeyedStatsService(pt)
    ensures ListsStatsService(pt) && FindsStatsService(pt)
  {
    var services := PTree("", [("", PTree("StatsService", []))]);
    assert GetChild(pt, ["api", "services"]) == Some(services) by {
      var api := PTree("", [("services", services)]);
      assert pt.children[0] == ("api", api);
      assert ChildNamed(pt, "api") == Some(api);
      assert ["api", "services"][1..] == ["services"];
      assert api.children[0] == ("services", services);
      assert ChildNamed(api, "services") == Some(services);
      assert ["services"][1..] == [];
    }
    assert services.children[0].0 != "StatsService";
    assert services.children[0].1.data == "StatsService";
  }

  predicate IsProtocol(node: PTree, name: string) {
    GetOptional(node, ["protocol"]) == Some(name)
  }

  predicate IsDokodemo(inbound: (string, PTree)) {
    IsProtocol(inbound.1, "dokodemo-door")
  }

  /** The first dokodemo-door child of `inbounds`, when there is one. */
  function FirstDokodemo(pt: PTree): (r: Option<PTree>)
    ensures r.Some? ==> GetChild(pt, ["inbounds"]).Some?
  {
    match GetChild(pt, ["inbounds"])
    case None => None
    case Some(inbounds) =>
      match FirstIndex(inbounds.children, IsDokodemo, 0)
      case None => None
      case Some(k) => Some(inbounds.children[k].1)
  }

  /** The address an inbound listens on: the text of its `listen` node, "127.0.0.1" without one. */
  function ListenOf(inbound: PTree): (r: string)
    ensures GetChild(inbound, ["listen"]).Some? ==> r == GetChild(inbound, ["listen"]).value.data
    ensures GetChild(inbound, ["listen"]).None? ==> r == "127.0.0.1"
  {
    Get(inbound, ["listen"], "127.0.0.1")
  }

  /** The port of an inbound as `get<int>("port", 0)` reads it. */
  function PortOf(inbound: PTree): (r: int)
    ensures r != 0 ==> GetChild(inbound, ["port"]).Some?
                       && ParseInt(GetChild(inbound, ["port"]).value.data) == Some(r)
  {
    GetInt(inbound, ["port"], 0)
  }

  /** `parseInbounds`: the first dokodemo-door inbound decides. Only a port of 0 (missing or
      unreadable) is refused; any other `int`, negative or above 65535, is taken. */
  function InboundSettings(pt: PTree): (r: Result<(string, int), ConfigError>)
    ensures r.Success? ==> r.value.1 != 0 && Int32Min <= r.value.1 <= Int32Max
    ensures r == Failure(MissingInbounds) <==> GetChild(pt, ["inbounds"]).None?
  {
    match GetChild(pt, ["inbounds"])
    case None => Failure(MissingInbounds)
    case Some(inbounds) =>
      match FirstDokodemo(pt)
      case None => Failure(MissingDokodemoDoor)
      case Some(inbound) =>
        if PortOf(inbound) == 0 then Failure(InvalidPort)
        else Success((ListenOf(inbound), PortOf(inbound)))
  }

  /** The first dokodemo-door inbound, found by its index, decides: its address and port, or a
      refused port. */
  lemma InboundChoice(pt: PTree, k: nat)
    requires GetChild(pt, ["inbounds"]).Some? && k < |GetChild(pt, ["inbounds"]).value.children|
    requires IsDokodemo(GetChild(pt, ["inbounds"]).value.children[k])
    requires forall j :: 0 <= j < k ==> !IsDokodemo(GetChild(pt, ["inbounds"]).value.children[j])
    ensures FirstDokodemo(pt) == Some(GetChild(pt, ["inbounds"]).value.children[k].1)
    ensures var inbound := GetChild(pt, ["inbounds"]).value.children[k].1;
            InboundSettings(pt) == if PortOf(inbound) == 0 then Failure(InvalidPort)
                                   else Success((ListenOf(inbound), PortOf(inbound)))
  {
    FirstIndexIs(GetChild(pt, ["inbounds"]).value.children, IsDokodemo, 0, k);
  }

  /** Conversely, a first dokodemo-door inbound sits at an index with none before it. */
  lemma FirstDokodemoAt(pt: PTree) returns (k: nat)
    requires FirstDokodemo(pt).Some?
    ensures k < |GetChild(pt, ["inbounds"]).value.children|
    ensures IsDokodemo(GetChild(pt, ["inbounds"]).value.children[k])
    ensures forall j :: 0 <= j < k ==> !IsDokodemo(GetChild(pt, ["inbounds"]).value.children[j])
    ensures FirstDokodemo(pt) == Some(GetChild(pt, ["inbounds"]).value.children[k].1)
  {
    k := FirstIndex(GetChild(pt, ["inbounds"]).value.children, IsDokodemo, 0).value;
  }

  /** Success means a first dokodemo-door inbound with a non-zero port, and it supplies the
      address and the port. */
  lemma InboundSuccess(pt: PTree)
    ensures InboundSettings(pt).Success? <==> FirstDokodemo(pt).Some? && PortOf(FirstDokodemo(pt).value) != 0
    ensures InboundSettings(pt).Success? ==>
              InboundSettings(pt).value == (ListenOf(FirstDokodemo(pt).value), PortOf(FirstDokodemo(pt).value))
  {
    if FirstDokodemo(pt).Some? {
      var k := FirstDokodemoAt(pt);
      InboundChoice(pt, k);
    }
  }

  /** Which inbounds lead to which refusal: no dokodemo-door inbound at all, or a first one
      whose port reads as 0. */
  lemma InboundRefusals(pt: PTree)
    ensures InboundSettings(pt) == Failure(MissingDokodemoDoor) <==>
              GetChild(pt, ["inbounds"]).Some?
              && forall k :: 0 <= k < |GetChild(pt, ["inbounds"]).value.children| ==>
                               !IsDokodemo(GetChild(pt, ["inbounds"]).value.children[k])
    ensures InboundSettings(pt) == Failure(InvalidPort) <==>
              GetChild(pt, ["inbounds"]).Some?
              && exists k :: 0 <= k < |GetChild(pt, ["inbounds"]).value.children|
                          && IsDokodemo(GetChild(pt, ["inbounds"]).value.children[k])
                          && (forall j :: 0 <= j < k ==> !IsDokodemo(GetChild(pt, ["inbounds"]).value.children[j]))
                          && GetInt(GetChild(pt, ["inbounds"]).value.children[k].1, ["port"], 0) == 0
  {
    var inbounds := GetChild(pt, ["inbounds"]);
    if inbounds.Some? {
      var first := FirstIndex(inbounds.value.children, IsDokodemo, 0);
      if first.Some? {
        var k := first.value;
        assert IsDokodemo(inbounds.value.children[k]);
        if InboundSettings(pt) != Failure(InvalidPort) {
          forall k' | 0 <= k' < |inbounds.value.children| && IsDokodemo(inbounds.value.children[k'])
                      && (forall j :: 0 <= j < k' ==> !IsDokodemo(inbounds.value.children[j]))
            ensures GetInt(inbounds.value.children[k'].1, ["port"], 0) != 0
          {
            assert k' == k;
          }
        }
      }
    }
  }

  /** The `settings.clients` children of a vless inbound; nothing for any other. */
  function ClientsOf(inbound: (string, PTree)): (r: seq<(string, PTree)>)
    ensures r != [] ==> IsProtocol(inbound.1, "vless")
  {
    if !IsProtocol(inbound.1, "vless") then []
    else
      match GetChild(inbound.1, ["settings", "clients"])
      case None => []
      case Some(clients) => clients.children
  }

  function VlessClients(inbounds: seq<(string, PTree)>): seq<(string, PTree)> {
    if inbounds == [] then []
    else VlessClients(inbounds[..|inbounds| - 1]) + ClientsOf(inbounds[|inbounds| - 1])
  }

  /** One more inbound on top of those before it. */
  lemma VlessClientsStep(inbounds: seq<(string, PTree)>, i: nat)
    requires i < |inbounds|
    ensures VlessClients(inbounds[..i + 1]) == VlessClients(inbounds[..i]) + ClientsOf(inbounds[i])
  {
    assert inbounds[..i + 1][..i] == inbounds[..i];
  }

  /** A client with a non-empty `id` and a non-empty `email`; every other field at its default. */
  function ClientEntry(client: (string, PTree)): (r: Option<User>)
    ensures r.Some? <==> Get(client.1, ["id"], "") != "" && Get(client.1, ["email"], "") != ""
    ensures r.Some? ==> r.value.email == Get(client.1, ["email"], "") && r.value.id == Get(client.1, ["id"], "")
                        && !r.value.connected && r.value.ip == "" && r.value.lastSeen == 0
                        && r.value.downlink == 0 && r.value.uplink == 0
  {
    var id := Get(client.1, ["id"], "");
    var email := Get(client.1, ["email"], "");
    if id != "" && email != "" then Some(ConfigUser(email, id)) else None
  }

  /** `parseUsers` on its own. */
  function UsersOf(pt: PTree): (r: map<string, User>)
    ensures GetChild(pt, ["inbounds"]).None? ==> r == map[]
    ensures KeyedByEmail(r)
    ensures forall e :: e in r ==> !r[e].connected && r[e].lastSeen == 0 && r[e].ip == ""
  {
    match GetChild(pt, ["inbounds"])
    case None => map[]
    case Some(inbounds) =>
      var cs := VlessClients(inbounds.children);
      CollectUsersOrigin(cs, ClientEntry);
      CollectUsers(cs, ClientEntry)
  }

  /** The whole of `parseFromFile` after `read_json` has built `pt`. */
  function Parse(pt: PTree): (r: Result<Settings, ConfigError>)
    ensures r.Success? ==> FindsStatsService(pt)
    ensures r.Success? ==> InboundSettings(pt) == Success((r.value.apiAddress, r.value.apiPort))
    ensures r.Success? ==> r.value.users == UsersOf(pt) && r.value.accessLogPath == Get(pt, ["log", "access"], "")
    ensures !FindsStatsService(pt) ==> r == Failure(MissingStatsService)
    ensures FindsStatsService(pt) && InboundSettings(pt).Failure? ==> r == Failure(InboundSettings(pt).error)
  {
    if !FindsStatsService(pt) then Failure(MissingStatsService)
    else
      match InboundSettings(pt)
      case Failure(e) => Failure(e)
      case Success(api) => Success(Settings(api.0, api.1, Get(pt, ["log", "access"], ""), UsersOf(pt)))
  }

  /** With the intended check, a services list holding "StatsService" at any position gets
      past the services check. */
  lemma StatsServiceListAccepted(pt: PTree, services: PTree, k: nat)
    requires GetChild(pt, ["api", "services"]) == Some(services)
    requires k < |services.children| && services.children[k].1.data == "StatsService"
    ensures FindsStatsService(pt)
    ensures Parse(pt) != Failure(MissingStatsService)
  {
  }

  /** The intended check refuses nothing the check as written lets through, and refuses
      exactly the trees that have neither a child keyed "StatsService" nor one holding it. */
  lemma StatsServiceKeyedAccepted(pt: PTree)
    ensures KeyedStatsService(pt) ==> Parse(pt) != Failure(MissingStatsService)
    ensures Parse(pt) == Failure(MissingStatsService) <==> !KeyedStatsService(pt) && !ListsStatsService(pt)
  {
  }

  /** A tree that passes the services check and the inbounds check is accepted with
      everything the later steps read. */
  lemma ParseAccepted(pt: PTree, address: string, port: int, access: string, users: map<string, User>)
    requires FindsStatsService(pt) && InboundSettings(pt) == Success((address, port))
    requires access == Get(pt, ["log", "access"], "")
    requires users == UsersOf(pt)
    ensures Parse(pt) == Success(Settings(address, port, access, users))
  {
  }

  class XRayConfig {
    var apiAddress: string
    var apiPort: int
    var accessLogPath: string
    var users: map<string, User>

    /** The member initialisers (taken to be those of the later revision's header). */
    constructor ()
      ensures apiAddress == "127.0.0.1" && apiPort == 0 && accessLogPath == "" && users == map[]
    {
      apiAddress := "127.0.0.1";
      apiPort := 0;
      accessLogPath := "";
      users := map[];
    }

    function Snapshot(): Settings
      reads this
    {
      Settings(apiAddress, apiPort, accessLogPath, users)
    }

    /** `validate`: only a zero port is refused. */
    function Validate(): (r: Outcome<ConfigError>)
      reads this
      ensures r.Pass? <==> apiPort != 0
      ensures r.Fail? ==> r.error == InvalidPort
    {
      if apiPort == 0 then Fail(InvalidPort) else Pass
    }

    /** `parseInbounds`: the address and port of the first dokodemo-door inbound are stored
        before the port is checked. */
    method ParseInbounds(pt: PTree) returns (r: Outcome<ConfigError>)
      modifies this`apiAddress, this`apiPort
      ensures InboundSettings(pt).Success? ==>
                r.Pass? && (apiAddress, apiPort) == InboundSettings(pt).value
      ensures InboundSettings(pt).Failure? ==>
                && r == Fail(InboundSettings(pt).error)
                && (InboundSettings(pt).error != InvalidPort ==>
                      apiAddress == old(apiAddress) && apiPort == old(apiPort))
                && (InboundSettings(pt).error == InvalidPort ==>
                      && apiPort == 0 && FirstDokodemo(pt).Some?
                      && apiAddress == ListenOf(FirstDokodemo(pt).value))
    {
      var inbounds := GetChild(pt, ["inbounds"]);
      if inbounds.None? {
        return Fail(MissingInbounds);
      }
      var children := inbounds.value.children;
      var found := false;
      var i := 0;
      while i < |children|
        invariant 0 <= i <= |children|
        invariant forall j :: 0 <= j < i ==> !IsDokodemo(children[j])
        invariant apiAddress == old(apiAddress) && apiPort == old(apiPort)
      {
        var inbound := children[i];
        var protocol := GetOptional(inbound.1, ["protocol"]);
        if protocol.Some? && protocol.value == "dokodemo-door" {
          InboundChoice(pt, i);
          apiAddress := Get(inbound.1, ["listen"], "127.0.0.1");
          apiPort := GetInt(inbound.1, ["port"], 0);
          if apiPort == 0 {
            return Fail(InvalidPort);
          }
          found := true;
          break;
        }
        i := i + 1;
      }
      if !found {
        return Fail(MissingDokodemoDoor);
      }
      return Pass;
    }

    /** The inner loop of `parseUsers`: the clients of one vless inbound, on top of the
        clients `base` of the inbounds before it. */
    method AddClients(clients: seq<(string, PTree)>, ghost start: map<string, User>, ghost base: seq<(string, PTree)>)
      requires users == start + CollectUsers(base, ClientEntry)
      modifies this`users
      ensures users == start + CollectUsers(base + clients, ClientEntry)
    {
      assert base + clients[..0] == base;
      var k := 0;
      while k < |clients|
        invariant 0 <= k <= |clients|
        invariant users == start + CollectUsers(base + clients[..k], ClientEntry)
      {
        var client := clients[k];
        // `id` and `email` read with default "", kept when both are non-empty
        var user := ClientEntry(client);
        CollectUsersStep(start, base, clients, k, ClientEntry, users, user);
        if user.Some? {
          users := users[user.value.email := user.value];
        }
        k := k + 1;
      }
      assert clients[..|clients|] == clients;
    }

    /** `parseUsers`: adds every client with an id and an email of every vless inbound, later
        ones winning; `get_child` throws when there are no inbounds. */
    method ParseUsers(pt: PTree) returns (r: Outcome<ConfigError>)
      modifies this`users
      ensures GetChild(pt, ["inbounds"]).None? ==> r == Fail(MissingInbounds) && users == old(users)
      ensures GetChild(pt, ["inbounds"]).Some? ==> r.Pass? && users == old(users) + UsersOf(pt)
    {
      var inbounds := GetChild(pt, ["inbounds"]);
      if inbounds.None? {
        return Fail(MissingInbounds);
      }
      var children := inbounds.value.children;
      var i := 0;
      while i < |children|
        invariant 0 <= i <= |children|
        invariant users == old(users) + CollectUsers(VlessClients(children[..i]), ClientEntry)
      {
        var inbound := children[i];
        ghost var base := VlessClients(children[..i]);
        VlessClientsStep(children, i);
        i := i + 1;
        var protocol := GetOptional(inbound.1, ["protocol"]);
        if protocol.Some? && protocol.value == "vless" {
          var clients := GetChild(inbound.1, ["settings", "clients"]);
          if clients.Some? {
            assert ClientsOf(inbound) == clients.value.children;
            AddClients(clients.value.children, old(users), base);
          } else {
            assert base + ClientsOf(inbound) == base;
          }
        } else {
          assert base + ClientsOf(inbound) == base;
        }
      }
      assert children[..|children|] == children;
      return Pass;
    }

    /** `parseFromFile` from the tree: the services check, then the inbounds, the users and
        the access-log path. A config it returns always passes `validate`. */
    static method ParseFromFile(pt: PTree) returns (r: Result<XRayConfig, ConfigError>)
      ensures r.Failure? ==> Parse(pt) == Failure(r.error)
      ensures r.Success? ==> fresh(r.value) && Parse(pt) == Success(r.value.Snapshot())
                             && r.value.Validate().Pass?
    {
      var config := new XRayConfig();
      if !FindsStatsService(pt) {
        return Failure(MissingStatsService);
      }
      var inb := config.ParseInbounds(pt);
      if inb.Fail? {
        return Failure(inb.error);
      }
      var usr := config.ParseUsers(pt);
      // `parseInbounds` has already found the inbounds, so `get_child` cannot throw here.
      assert usr.Pass?;
      EmptyUnion(UsersOf(pt));
      config.accessLogPath := Get(pt, ["log", "access"], "");
      ParseAccepted(pt, config.apiAddress, config.apiPort, config.accessLogPath, config.users);
      return Success(config);
    }
  }
}
