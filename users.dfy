/** The peer record shared by both revisions of the peer table (src/State.h, src/Config.h) and
    the map operations that specify the table's methods. */
module Users {

  /** `uint64_t` traffic counters. */
  type uint64 = x: int | 0 <= x < 0x1_0000_0000_0000_0000

  /** One configured user and its last known session facts. */
  datatype User = User(
    id: string,
    email: string,
    ip: string,
    connected: bool,
    lastSeen: int,
    downlink: uint64,
    uplink: uint64)

  /** A default-constructed `User`. */
  const DefaultUser: User := User("", "", "", false, 0, 0, 0)

  /** The table's invariant: the entry stored under key `e` is the user with email `e`. */
  predicate KeyedByEmail(m: map<string, User>) {
    forall e :: e in m ==> m[e].email == e
  }

  /** `State::updateUser`: merge into an existing entry, or insert a fresh one. */
  function Upsert(m: map<string, User>, email: string, ip: string, connected: bool,
                  downlink: uint64, uplink: uint64, now: int): (r: map<string, User>)
    ensures r.Keys == m.Keys + {email}
    ensures forall e :: e in m && e != email ==> r[e] == m[e]
    ensures email !in m ==> r[email] == User("", email, ip, connected, now, downlink, uplink)
    ensures email in m ==>
      && r[email].id == m[email].id && r[email].email == m[email].email
      && r[email].connected == connected && r[email].lastSeen == now
      && r[email].ip == (if ip == "" then m[email].ip else ip)
      && r[email].downlink == (if downlink == 0 then m[email].downlink else downlink)
      && r[email].uplink == (if uplink == 0 then m[email].uplink else uplink)
    ensures KeyedByEmail(m) ==> KeyedByEmail(r)
  {
    if email in m then
      var u := m[email];
      m[email := u.(connected := connected, lastSeen := now,
                    ip := if ip != "" then ip else u.ip,
                    downlink := if downlink > 0 then downlink else u.downlink,
                    uplink := if uplink > 0 then uplink else u.uplink)]
    else
      m[email := User("", email, ip, connected, now, downlink, uplink)]
  }

  /** Repeating an update changes nothing more: fields are overwritten, never accumulated. */
  lemma UpsertIdempotent(m: map<string, User>, email: string, ip: string, connected: bool,
                         downlink: uint64, uplink: uint64, now: int)
    ensures var once := Upsert(m, email, ip, connected, downlink, uplink, now);
            Upsert(once, email, ip, connected, downlink, uplink, now) == once
  {
    var once := Upsert(m, email, ip, connected, downlink, uplink, now);
    var twice := Upsert(once, email, ip, connected, downlink, uplink, now);
    assert twice[email] == once[email];
  }

  /** `State::getUser`: the stored record, or a default `User` when the key is absent. */
  function Lookup(m: map<string, User>, email: string): (r: User)
    ensures email in m ==> r == m[email]
    ensures email !in m ==> r == DefaultUser
  {
    if email in m then m[email] else DefaultUser
  }

  /** Under the table's invariant, a non-empty email is known exactly when its lookup is not
      the default record (the test `!user.email.empty()`). */
  lemma LookupKnown(m: map<string, User>, email: string)
    requires KeyedByEmail(m) && email != ""
    ensures Lookup(m, email).email != "" <==> email in m
  {
  }

  /** The entries whose `connected` flag is set. */
  function ConnectedView(m: map<string, User>): map<string, User> {
    map e | e in m && m[e].connected :: m[e]
  }

  /** The entries whose `connected` flag is clear. */
  function DisconnectedView(m: map<string, User>): map<string, User> {
    map e | e in m && !m[e].connected :: m[e]
  }

  /** The two views split the table exactly on the `connected` flag. */
  lemma ViewsPartition(m: map<string, User>)
    ensures ConnectedView(m).Keys !! DisconnectedView(m).Keys
    ensures ConnectedView(m).Keys + DisconnectedView(m).Keys == m.Keys
    ensures ConnectedView(m) + DisconnectedView(m) == m
    ensures forall e :: e in ConnectedView(m) <==> e in m && m[e].connected
    ensures forall e :: e in DisconnectedView(m) <==> e in m && !m[e].connected
  {
    var c, d := ConnectedView(m), DisconnectedView(m);
    assert (c + d).Keys == m.Keys;
    forall e | e in m ensures (c + d)[e] == m[e] {
      if m[e].connected { assert e !in d; } else { assert e in d; }
    }
  }

  /** Every entry with its `connected` flag cleared and nothing else changed. */
  function AllDisconnected(m: map<string, User>): (r: map<string, User>)
    ensures r.Keys == m.Keys
    ensures forall e :: e in m ==> r[e] == m[e].(connected := false)
  {
    map e | e in m :: m[e].(connected := false)
  }

  /** After disconnecting everyone, the connected view is empty and every entry is
      disconnected. */
  lemma AllDisconnectedViews(m: map<string, User>)
    ensures ConnectedView(AllDisconnected(m)) == map[]
    ensures DisconnectedView(AllDisconnected(m)) == AllDisconnected(m)
    ensures KeyedByEmail(m) ==> KeyedByEmail(AllDisconnected(m))
  {
    var a := AllDisconnected(m);
    assert ConnectedView(a).Keys == {};
  }
}
