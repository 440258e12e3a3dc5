/** src/Config.cpp: `XRayConfig::parseFromFile` over a parsed `boost::json` value. Reading
    and parsing the file are not part of this model; it starts from the parsed value. */
module JsonConfig {
  import opened Wrappers
  import opened Users
  import opened ConfigCommon

  type int64 = x: int | -0x8000_0000_0000_0000 <= x < 0x8000_0000_0000_0000

  /** A `boost::json::value`; an object has at most one member per key. */
  datatype Json =
    | JNull
    | JBool(b: bool)
    | JInt64(i: int64)
    | JUInt64(u: uint64)
    | JDouble(d: real)
    | JString(s: string)
    | JArray(items: seq<Json>)
    | JObject(fields: map<string, Json>)

  /** `get_optional_string`: the member's text when it exists and is a string. */
  function GetOptionalString(obj: map<string, Json>, key: string): (r: Option<string>)
    ensures r.Some? <==> key in obj && obj[key].JString?
    ensures r.Some? ==> obj[key] == JString(r.value)
  {
    if key in obj && obj[key].JString? then Some(obj[key].s) else None
  }

  /** `get_optional_int64`: the member's value when it is stored as a signed 64-bit integer;
      an unsigned or floating-point number is not accepted. */
  function GetOptionalInt64(obj: map<string, Json>, key: string): (r: Option<int64>)
    ensures r.Some? <==> key in obj && obj[key].JInt64?
    ensures r.Some? ==> obj[key] == JInt64(r.value)
  {
    if key in obj && obj[key].JInt64? then Some(obj[key].i) else None
  }

  /** The member `key` of `obj` when it is an object. */
  function ObjectAt(obj: map<string, Json>, key: string): Option<map<string, Json>> {
    if key in obj && obj[key].JObject? then Some(obj[key].fields) else None
  }

  /** The member `key` of `obj` when it is an array. */
  function ArrayAt(obj: map<string, Json>, key: string): Option<seq<Json>> {
    if key in obj && obj[key].JArray? then Some(obj[key].items) else None
  }

  /** `api.services` is an array holding the string "StatsService". */
  predicate HasStatsService(root: map<string, Json>): (r: bool)
    ensures r <==> && "api" in root && root["api"].JObject?
                   && "services" in root["api"].fields && root["api"].fields["services"].JArray?
                   && exists k :: 0 <= k < |root["api"].fields["services"].items|
                                  && root["api"].fields["services"].items[k] == JString("StatsService")
  {
    match ObjectAt(root, "api")
    case None => false
    case Some(api) =>
      match ArrayAt(api, "services")
      case None => false
      case Some(services) => JString("StatsService") in services
  }

  /** A services list holding "StatsService" at any position gets past the services check,
      and a document without one is refused for it. */
  lemma StatsServiceListAccepted(j: Json, k: nat)
    requires j.JObject? && "api" in j.fields && j.fields["api"].JObject?
    requires var api := j.fields["api"].fields;
             "services" in api && api["services"].JArray? && k < |api["services"].items|
             && api["services"].items[k] == JString("StatsService")
    ensures HasStatsService(j.fields)
    ensures Parse(j) != Failure(MissingStatsService) && Parse(j) != Failure(NotAnObject)
  {
  }

  /** An inbound object whose `protocol` is the string `name`. */
  predicate IsProtocol(v: Json, name: string) {
    v.JObject? && GetOptionalString(v.fields, "protocol") == Some(name)
  }

  predicate IsDokodemo(v: Json) {
    IsProtocol(v, "dokodemo-door")
  }

  /** The first dokodemo-door inbound of the `inbounds` array, when there is one. */
  function FirstDokodemo(root: map<string, Json>): (r: Option<map<string, Json>>)
    ensures r.Some? ==> ArrayAt(root, "inbounds").Some?
  {
    match ArrayAt(root, "inbounds")
    case None => None
    case Some(inbounds) =>
      match FirstIndex(inbounds, IsDokodemo, 0)
      case None => None
      case Some(k) => Some(inbounds[k].fields)
  }

  /** The address an inbound listens on: its `listen` string, "127.0.0.1" without one. */
  function ListenOf(inbound: map<string, Json>): (r: string)
    ensures "listen" in inbound && inbound["listen"].JString? ==> r == inbound["listen"].s
    ensures !("listen" in inbound && inbound["listen"].JString?) ==> r == "127.0.0.1"
  {
    GetOptionalString(inbound, "listen").GetOr("127.0.0.1")
  }

  /** The port of an inbound when it is a signed integer from 1 to 65535. */
  function PortOf(inbound: map<string, Json>): (r: Option<int>)
    ensures r.Some? <==> "port" in inbound && inbound["port"].JInt64? && 1 <= inbound["port"].i <= 65535
    ensures r.Some? ==> r.value == inbound["port"].i as int
  {
    var port := GetOptionalInt64(inbound, "port");
    if port.None? || port.value <= 0 || port.value > 65535 then None else Some(port.value as int)
  }

  /** `parseInbounds`: the address and port of the first dokodemo-door inbound. */
  function InboundSettings(root: map<string, Json>): (r: Result<(string, int), ConfigError>)
    ensures r.Success? ==> 1 <= r.value.1 <= 65535
    ensures r == Failure(MissingInbounds) <==> ArrayAt(root, "inbounds").None?
    ensures r == Failure(MissingDokodemoDoor) <==>
              ArrayAt(root, "inbounds").Some?
              && forall k :: 0 <= k < |ArrayAt(root, "inbounds").value| ==>
                                !IsDokodemo(ArrayAt(root, "inbounds").value[k])
  {
    match ArrayAt(root, "inbounds")
    case None => Failure(MissingInbounds)
    case Some(inbounds) =>
      match FirstDokodemo(root)
      case None => Failure(MissingDokodemoDoor)
      case Some(inbound) =>
        match PortOf(inbound)
        case None => Failure(InvalidPort)
        case Some(port) => Success((ListenOf(inbound), port))
  }

  /** The first dokodemo-door inbound, found by its index, decides: its address and port, or a
      refused port. */
  lemma InboundChoice(root: map<string, Json>, k: nat)
    requires ArrayAt(root, "inbounds").Some? && k < |ArrayAt(root, "inbounds").value|
    requires IsDokodemo(ArrayAt(root, "inbounds").value[k])
    requires forall j :: 0 <= j < k ==> !IsDokodemo(ArrayAt(root, "inbounds").value[j])
    ensures FirstDokodemo(root) == Some(ArrayAt(root, "inbounds").value[k].fields)
    ensures var inbound := ArrayAt(root, "inbounds").value[k].fields;
            InboundSettings(root) == if PortOf(inbound).None? then Failure(InvalidPort)
                                     else Success((ListenOf(inbound), PortOf(inbound).value))
  {
    FirstIndexIs(ArrayAt(root, "inbounds").value, IsDokodemo, 0, k);
  }

  /** Conversely, a first dokodemo-door inbound sits at an index with none before it. */
  lemma FirstDokodemoAt(root: map<string, Json>) returns (k: nat)
    requires FirstDokodemo(root).Some?
    ensures k < |ArrayAt(root, "inbounds").value| && IsDokodemo(ArrayAt(root, "inbounds").value[k])
    ensures forall j :: 0 <= j < k ==> !IsDokodemo(ArrayAt(root, "inbounds").value[j])
    ensures FirstDokodemo(root) == Some(ArrayAt(root, "inbounds").value[k].fields)
  {
    k := FirstIndex(ArrayAt(root, "inbounds").value, IsDokodemo, 0).value;
  }

  /** A refused port means a first dokodemo-door inbound whose port is missing, not a signed
      integer, or outside 1..65535; the other outcomes have that inbound's address and port. */
  lemma InboundRefusals(root: map<string, Json>)
    ensures InboundSettings(root) == Failure(InvalidPort) <==>
              FirstDokodemo(root).Some? && PortOf(FirstDokodemo(root).value).None?
    ensures InboundSettings(root).Success? <==>
              FirstDokodemo(root).Some? && PortOf(FirstDokodemo(root).value).Some?
    ensures InboundSettings(root).Success? ==>
              InboundSettings(root).value == (ListenOf(FirstDokodemo(root).value), PortOf(FirstDokodemo(root).value).value)
  {
    if FirstDokodemo(root).Some? {
      var k := FirstDokodemoAt(root);
      InboundChoice(root, k);
    }
  }

  /** The clients array of a vless inbound; nothing for any other element. */
  function ClientsOf(inbound: Json): (r: seq<Json>)
    ensures r != [] ==> IsProtocol(inbound, "vless")
  {
    if !IsProtocol(inbound, "vless") then []
    else
      match ObjectAt(inbound.fields, "settings")
      case None => []
      case Some(settings) => ArrayAt(settings, "clients").GetOr([])
  }

  /** The clients of every vless inbound, in order. */
  function VlessClients(inbounds: seq<Json>): seq<Json> {
    if inbounds == [] then []
    else VlessClients(inbounds[..|inbounds| - 1]) + ClientsOf(inbounds[|inbounds| - 1])
  }

  /** One more inbound on top of those before it. */
  lemma VlessClientsStep(inbounds: seq<Json>, i: nat)
    requires i < |inbounds|
    ensures VlessClients(inbounds[..i + 1]) == VlessClients(inbounds[..i]) + ClientsOf(inbounds[i])
  {
    assert inbounds[..i + 1][..i] == inbounds[..i];
  }

  /** A client object with a string id and a non-empty string email. */
  function ClientEntry(client: Json): (r: Option<User>)
    ensures r.Some? ==> r.value.email != "" && !r.value.connected && r.value.ip == ""
                        && r.value.lastSeen == 0 && r.value.downlink == 0 && r.value.uplink == 0
    ensures r.Some? <==> client.JObject? && GetOptionalString(client.fields, "email").Some?
                         && GetOptionalString(client.fields, "email").value != ""
                         && GetOptionalString(client.fields, "id").Some?
    ensures r.Some? ==> client.fields["email"] == JString(r.value.email)
                        && client.fields["id"] == JString(r.value.id)
  {
    if !client.JObject? then None
    else
      var id := GetOptionalString(client.fields, "id");
      var email := GetOptionalString(client.fields, "email");
      if id.Some? && email.Some? && email.value != "" then Some(ConfigUser(email.value, id.value))
      else None
  }

  /** `parseUsers` on its own. */
  function UsersOf(root: map<string, Json>): (r: map<string, User>)
    ensures ArrayAt(root, "inbounds").None? ==> r == map[]
    ensures KeyedByEmail(r)
    ensures forall e :: e in r ==> !r[e].connected && r[e].lastSeen == 0 && r[e].ip == ""
  {
    match ArrayAt(root, "inbounds")
    case None => map[]
    case Some(inbounds) =>
      var cs := VlessClients(inbounds);
      CollectUsersOrigin(cs, ClientEntry);
      CollectUsers(cs, ClientEntry)
  }

  /** `log.access` when it is a string, otherwise empty. */
  function AccessLogOf(root: map<string, Json>): (r: string)
    ensures ("log" in root && root["log"].JObject? && "access" in root["log"].fields
             && root["log"].fields["access"].JString?) ==> r == root["log"].fields["access"].s
    ensures r != "" ==> "log" in root && root["log"].JObject? && "access" in root["log"].fields
                        && root["log"].fields["access"] == JString(r)
  {
    match ObjectAt(root, "log")
    case None => ""
    case Some(log) => GetOptionalString(log, "access").GetOr("")
  }

  /** The whole of `parseFromFile` after the file has been parsed into `j`. */
  function Parse(j: Json): (r: Result<Settings, ConfigError>)
    ensures r.Success? ==> j.JObject? && HasStatsService(j.fields)
    ensures r.Success? ==> InboundSettings(j.fields) == Success((r.value.apiAddress, r.value.apiPort))
    ensures r.Success? ==> r.value.users == UsersOf(j.fields) && r.value.accessLogPath == AccessLogOf(j.fields)
    ensures !j.JObject? ==> r == Failure(NotAnObject)
    ensures j.JObject? && !HasStatsService(j.fields) ==> r == Failure(MissingStatsService)
    ensures j.JObject? && HasStatsService(j.fields) && InboundSettings(j.fields).Failure? ==>
              r == Failure(InboundSettings(j.fields).error)
  {
    if !j.JObject? then Failure(NotAnObject)
    else if !HasStatsService(j.fields) then Failure(MissingStatsService)
    else
      match InboundSettings(j.fields)
      case Failure(e) => Failure(e)
      case Success(api) =>
        Success(Settings(api.0, api.1, AccessLogOf(j.fields), UsersOf(j.fields)))
  }

  /** A visited client comes from the clients array of some vless inbound. */
  lemma {:induction false} VlessClientSource(inbounds: seq<Json>, c: Json) returns (k: nat)
    requires c in VlessClients(inbounds)
    decreases |inbounds|
    ensures k < |inbounds| && IsProtocol(inbounds[k], "vless") && c in ClientsOf(inbounds[k])
  {
    var n := |inbounds| - 1;
    assert VlessClients(inbounds) == VlessClients(inbounds[..n]) + ClientsOf(inbounds[n]);
    if c in ClientsOf(inbounds[n]) {
      k := n;
    } else {
      k := VlessClientSource(inbounds[..n], c);
      assert inbounds[..n][k] == inbounds[k];
    }
  }

  /** Every client of every inbound's clients array is visited. */
  lemma {:induction false} VlessClientVisited(inbounds: seq<Json>, c: Json, k: nat)
    requires k < |inbounds| && c in ClientsOf(inbounds[k])
    decreases |inbounds|
    ensures c in VlessClients(inbounds)
  {
    var n := |inbounds| - 1;
    assert VlessClients(inbounds) == VlessClients(inbounds[..n]) + ClientsOf(inbounds[n]);
    if k < n {
      assert inbounds[..n][k] == inbounds[k];
      VlessClientVisited(inbounds[..n], c, k);
    }
  }

  /** A configured user is exactly an accepted client of some vless inbound. */
  lemma VlessClientsMembership(inbounds: seq<Json>, c: Json)
    ensures c in VlessClients(inbounds) <==>
            exists k :: 0 <= k < |inbounds| && IsProtocol(inbounds[k], "vless") && c in ClientsOf(inbounds[k])
  {
    if c in VlessClients(inbounds) {
      var k := VlessClientSource(inbounds, c);
    }
    if exists k :: 0 <= k < |inbounds| && IsProtocol(inbounds[k], "vless") && c in ClientsOf(inbounds[k]) {
      var k :| 0 <= k < |inbounds| && IsProtocol(inbounds[k], "vless") && c in ClientsOf(inbounds[k]);
      VlessClientVisited(inbounds, c, k);
    }
  }

  /** Parsed users are the defaulted records of configured clients, keyed by email. */
  lemma ParsedUsersAreClients(j: Json, e: string)
    requires Parse(j).Success? && e in Parse(j).value.users
    ensures KeyedByEmail(Parse(j).value.users)
    ensures exists c :: c in VlessClients(j.fields["inbounds"].items) && ClientEntry(c) == Some(Parse(j).value.users[e])
    ensures !Parse(j).value.users[e].connected && Parse(j).value.users[e].lastSeen == 0
  {
    var cs := VlessClients(j.fields["inbounds"].items);
    CollectUsersOrigin(cs, ClientEntry);
    var k :| 0 <= k < |cs| && ClientEntry(cs[k]) == Some(Parse(j).value.users[e]);
    assert cs[k] in cs;
  }

  /** A document that passes the services check and the inbounds check is accepted with
      everything the later steps read. */
  lemma ParseAccepted(j: Json, address: string, port: int, access: string, users: map<string, User>)
    requires j.JObject? && HasStatsService(j.fields)
    requires InboundSettings(j.fields) == Success((address, port))
    requires access == AccessLogOf(j.fields) && users == UsersOf(j.fields)
    ensures Parse(j) == Success(Settings(address, port, access, users))
  {
  }

  class XRayConfig {
    var apiAddress: string
    var apiPort: int
    var accessLogPath: string
    var users: map<string, User>

    /** The member initialisers of `struct XRayConfig`. */
    constructor ()
      ensures apiAddress == "127.0.0.1" && apiPort == 0 && accessLogPath == "" && users == map[]
    {
      apiAddress := "127.0.0.1";
      apiPort := 0;
      accessLogPath := "";
      users := map[];
    }

    function Snapshot(): Settings
      reads this
    {
      Settings(apiAddress, apiPort, accessLogPath, users)
    }

    /** `validate`: the port is in 1..65535. */
    function Validate(): (r: Outcome<ConfigError>)
      reads this
      ensures r.Pass? <==> 1 <= apiPort <= 65535
      ensures r.Fail? ==> r.error == InvalidPort
    {
      if apiPort <= 0 || apiPort > 65535 then Fail(InvalidPort) else Pass
    }

    /** `parseInbounds`: the first dokodemo-door inbound decides; its address is stored even
        when its port is then refused. */
    method ParseInbounds(root: map<string, Json>) returns (r: Outcome<ConfigError>)
      modifies this`apiAddress, this`apiPort
      ensures InboundSettings(root).Success? ==>
                r.Pass? && (apiAddress, apiPort) == InboundSettings(root).value
      ensures InboundSettings(root).Failure? ==>
                && r == Fail(InboundSettings(root).error)
                && apiPort == old(apiPort)
                && (InboundSettings(root).error != InvalidPort ==> apiAddress == old(apiAddress))
                && (InboundSettings(root).error == InvalidPort ==>
                      FirstDokodemo(root).Some? && apiAddress == ListenOf(FirstDokodemo(root).value))
    {
      if !("inbounds" in root && root["inbounds"].JArray?) {
        return Fail(MissingInbounds);
      }
      var inbounds := root["inbounds"].items;
      var found := false;
      var i := 0;
      while i < |inbounds|
        invariant 0 <= i <= |inbounds|
        invariant forall j :: 0 <= j < i ==> !IsDokodemo(inbounds[j])
        invariant apiAddress == old(apiAddress) && apiPort == old(apiPort)
      {
        var inbound := inbounds[i];
        if inbound.JObject? {
          var protocol := GetOptionalString(inbound.fields, "protocol");
          if protocol.Some? && protocol.value == "dokodemo-door" {
            InboundChoice(root, i);
            apiAddress := GetOptionalString(inbound.fields, "listen").GetOr("127.0.0.1");
            var port := GetOptionalInt64(inbound.fields, "port");
            if port.None? || port.value <= 0 || port.value > 65535 {
              return Fail(InvalidPort);
            }
            apiPort := port.value as int;
            found := true;
            break;
          }
        }
        i := i + 1;
      }
      if !found {
        return Fail(MissingDokodemoDoor);
      }
      return Pass;
    }

    /** `parseUsers`: adds every accepted client of every vless inbound, later ones winning. */
    method ParseUsers(root: map<string, Json>)
      modifies this`users
      ensures users == old(users) + UsersOf(root)
    {
      if !("inbounds" in root && root["inbounds"].JArray?) {
        return;
      }
      var inbounds := root["inbounds"].items;
      var i := 0;
      while i < |inbounds|
        invariant 0 <= i <= |inbounds|
        invariant users == old(users) + CollectUsers(VlessClients(inbounds[..i]), ClientEntry)
      {
        var inbound := inbounds[i];
        ghost var base := VlessClients(inbounds[..i]);
        VlessClientsStep(inbounds, i);
        i := i + 1;
        if !inbound.JObject? {
          assert base + [] == base;
          continue;
        }
        var protocol := GetOptionalString(inbound.fields, "protocol");
        if protocol.None? || protocol.value != "vless" {
          assert base + [] == base;
          continue;
        }
        if !("settings" in inbound.fields && inbound.fields["settings"].JObject?) {
          assert base + [] == base;
          continue;
        }
        var settings := inbound.fields["settings"].fields;
        if !("clients" in settings && settings["clients"].JArray?) {
          assert base + [] == base;
          continue;
        }
        var clients := settings["clients"].items;
        assert ClientsOf(inbound) == clients;
        AddClients(clients, old(users), base);
      }
      assert inbounds[..|inbounds|] == inbounds;
    }

    /** The inner loop of `parseUsers`: the clients of one vless inbound, on top of the
        clients `base` of the inbounds before it. */
    method AddClients(clients: seq<Json>, ghost start: map<string, User>, ghost base: seq<Json>)
      requires users == start + CollectUsers(base, ClientEntry)
      modifies this`users
      ensures users == start + CollectUsers(base + clients, ClientEntry)
    {
      assert base + clients[..0] == base;
      var k := 0;
      while k < |clients|
        invariant 0 <= k <= |clients|
        invariant users == start + CollectUsers(base + clients[..k], ClientEntry)
      {
        var client := clients[k];
        // skipped unless an object with a string `id` and a non-empty string `email`
        var user := ClientEntry(client);
        CollectUsersStep(start, base, clients, k, ClientEntry, users, user);
        if user.Some? {
          users := users[user.value.email := user.value];
        }
        k := k + 1;
      }
      assert clients[..|clients|] == clients;
    }

    /** `parseFromFile` from the parsed document: the services check, then the inbounds, the
        users and the access-log path. A config it returns always passes `validate`. */
    static method ParseFromFile(j: Json) returns (r: Result<XRayConfig, ConfigError>)
      ensures r.Failure? ==> Parse(j) == Failure(r.error)
      ensures r.Success? ==> fresh(r.value) && Parse(j) == Success(r.value.Snapshot())
                             && r.value.Validate().Pass?
    {
      var config := new XRayConfig();
      if !j.JObject? {
        return Failure(NotAnObject);
      }
      var root := j.fields;
      var hasStatsService := false;
      if "api" in root && root["api"].JObject? {
        var api := root["api"].fields;
        if "services" in api && api["services"].JArray? {
          var services := api["services"].items;
          var i := 0;
          while i < |services|
            invariant 0 <= i <= |services|
            invariant !hasStatsService ==> JString("StatsService") !in services[..i]
            invariant hasStatsService ==> JString("StatsService") in services
          {
            var svc := services[i];
            if svc.JString? && svc.s == "StatsService" {
              hasStatsService := true;
              break;
            }
            assert services[..i + 1] == services[..i] + [svc];
            i := i + 1;
          }
          assert !hasStatsService ==> services[..i] == services;
        }
      }
      assert hasStatsService <==> HasStatsService(root);
      if !hasStatsService {
        return Failure(MissingStatsService);
      }
      var inb := config.ParseInbounds(root);
      if inb.Fail? {
        return Failure(inb.error);
      }
      config.ParseUsers(root);
      EmptyUnion(UsersOf(root));
      if "log" in root && root["log"].JObject? {
        var log := root["log"].fields;
        if "access" in log && log["access"].JString? {
          config.accessLogPath := log["access"].s;
        }
      }
      ParseAccepted(j, config.apiAddress, config.apiPort, config.accessLogPath, config.users);
      return Success(config);
    }
  }
}
