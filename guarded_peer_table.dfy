/** The peer table of the root-level State.cpp revision: the same map from email to `User`,
    whose methods each ran under one mutex; this revision has no bulk disconnect. Its method
    bodies repeat those of module PeerTable, one module per revision. */
module GuardedPeerTable {
  import opened Users

  class State {
    /** The `users` unordered_map. */
    var users: map<string, User>

    /** Every entry is stored under its own email. */
    ghost predicate Valid()
      reads this
    {
      KeyedByEmail(users)
    }

    constructor ()
      ensures Valid() && users == map[]
    {
      users := map[];
    }

    /** Upserts one user; the wall clock is the parameter `now`. */
    method UpdateUser(email: string, ip: string, connected: bool, downlink: uint64, uplink: uint64, now: int)
      requires Valid()
      modifies this
      ensures Valid()
      ensures users == Upsert(old(users), email, ip, connected, downlink, uplink, now)
    {
      if email in users {
        var u := users[email];
        u := u.(connected := connected, lastSeen := now);
        if ip != "" {
          u := u.(ip := ip);
        }
        if downlink > 0 { u := u.(downlink := downlink); }
        if uplink > 0 { u := u.(uplink := uplink); }
        users := users[email := u];
      } else {
        var user := DefaultUser.(email := email, ip := ip, connected := connected,
                                 lastSeen := now, downlink := downlink, uplink := uplink);
        users := users[email := user];
      }
    }

    /** Erases exactly the given key; a no-op when it is absent. */
    method RemoveUser(email: string)
      requires Valid()
      modifies this
      ensures Valid()
      ensures users == old(users) - {email}
      ensures email !in old(users) ==> users == old(users)
    {
      users := users - {email};
    }

    /** The stored record, or a default-constructed `User`. */
    method GetUser(email: string) returns (u: User)
      ensures u == Lookup(users, email)
      ensures email in users ==> u == users[email]
      ensures email !in users ==> u.email == "" && !u.connected && u.lastSeen == 0
                                  && u.downlink == 0 && u.uplink == 0
    {
      if email in users {
        return users[email];
      }
      return DefaultUser;
    }

    /** A copy of the whole table. */
    method GetUsers() returns (r: map<string, User>)
      ensures r == users
    {
      r := users;
    }

    /** The entries whose `connected` flag is set, built entry by entry. */
    method GetConnectedUsers() returns (r: map<string, User>)
      ensures r == ConnectedView(users)
    {
      r := map[];
      var rest := users.Keys;
      while rest != {}
        invariant rest <= users.Keys
        invariant r == map e | e in users.Keys - rest && users[e].connected :: users[e]
        decreases rest
      {
        var e :| e in rest;
        if users[e].connected {
          r := r[e := users[e]];
        }
        rest := rest - {e};
      }
    }

    /** The entries whose `connected` flag is clear, built entry by entry. */
    method GetDisconnectedUsers() returns (r: map<string, User>)
      ensures r == DisconnectedView(users)
    {
      r := map[];
      var rest := users.Keys;
      while rest != {}
        invariant rest <= users.Keys
        invariant r == map e | e in users.Keys - rest && !users[e].connected :: users[e]
        decreases rest
      {
        var e :| e in rest;
        if !users[e].connected {
          r := r[e := users[e]];
        }
        rest := rest - {e};
      }
    }
  }
}
