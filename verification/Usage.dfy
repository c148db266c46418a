/** Live usage: how many sessions are online, which game each user was last seen in, and how many users each
    game has. */
module Usage {

  datatype State = State(totalOnline: int, gameUsers: map<string, int>, clientGame: map<int, string>)

  const NEW_STATE := State(0, map[], map[])

  datatype Call = Login | Logout(user: int) | TouchGame(user: int, comId: string)

  // ---------------------------------------------------------------------------------------------
  // The calls on values

  /** One user fewer; a game nobody is left in has no entry. */
  function Less(games: map<string, int>, g: string): map<string, int> {
    if g !in games then games
    else if games[g] - 1 <= 0 then games - {g}
    else games[g := games[g] - 1]
  }

  function More(games: map<string, int>, g: string): map<string, int> {
    games[g := (if g in games then games[g] else 0) + 1]
  }

  function LoggedOut(s: State, user: int): State {
    var total := if s.totalOnline > 0 then s.totalOnline - 1 else s.totalOnline;
    if user !in s.clientGame then s.(totalOnline := total)
    else State(total, Less(s.gameUsers, s.clientGame[user]), s.clientGame - {user})
  }

  function Touched(s: State, user: int, comId: string): (State, bool) {
    if comId == "" then (s, false)
    else if user in s.clientGame && s.clientGame[user] == comId then (s, false)
    else
      var left := if user in s.clientGame then Less(s.gameUsers, s.clientGame[user]) else s.gameUsers;
      (State(s.totalOnline, More(left, comId), s.clientGame[user := comId]), true)
  }

  function Step(s: State, c: Call): State {
    match c
    case Login => s.(totalOnline := s.totalOnline + 1)
    case Logout(user) => LoggedOut(s, user)
    case TouchGame(user, comId) => Touched(s, user, comId).0
  }

  function After(calls: seq<Call>): State {
    if calls == [] then NEW_STATE else Step(After(calls[..|calls| - 1]), calls[|calls| - 1])
  }

  // ---------------------------------------------------------------------------------------------
  // The histogram

  function UsersOf(clients: map<int, string>, g: string): set<int> {
    set u | u in clients && clients[u] == g
  }

  /** A game has an entry exactly when some user is in it, and the entry is how many. */
  ghost predicate Counts(games: map<string, int>, clients: map<int, string>) {
    && (forall g :: g in games <==> UsersOf(clients, g) != {})
    && (forall g :: g in games ==> games[g] == |UsersOf(clients, g)|)
  }

  lemma UserLeaves(games: map<string, int>, clients: map<int, string>, user: int)
    requires Counts(games, clients) && user in clients
    ensures Counts(Less(games, clients[user]), clients - {user})
  {
    var g := clients[user];
    assert user in UsersOf(clients, g);
    assert UsersOf(clients - {user}, g) == UsersOf(clients, g) - {user};
    assert |UsersOf(clients - {user}, g)| == games[g] - 1;
    forall h | h != g ensures UsersOf(clients - {user}, h) == UsersOf(clients, h) {
    }
  }

  lemma UserEnters(games: map<string, int>, clients: map<int, string>, user: int, g: string)
    requires Counts(games, clients) && user !in clients
    ensures Counts(More(games, g), clients[user := g])
  {
    var after := clients[user := g];
    assert UsersOf(after, g) == UsersOf(clients, g) + {user};
    forall h | h != g ensures UsersOf(after, h) == UsersOf(clients, h) {
    }
  }

  /** Every call keeps the histogram exact. */
  lemma StepKeepsCounts(s: State, c: Call)
    requires Counts(s.gameUsers, s.clientGame)
    ensures Counts(Step(s, c).gameUsers, Step(s, c).clientGame)
  {
    if !c.Login? && c.user in s.clientGame {
      UserLeaves(s.gameUsers, s.clientGame, c.user);
      if c.TouchGame? {
        assert (s.clientGame - {c.user})[c.user := c.comId] == s.clientGame[c.user := c.comId];
        UserEnters(Less(s.gameUsers, s.clientGame[c.user]), s.clientGame - {c.user}, c.user, c.comId);
      }
    } else if c.TouchGame? {
      UserEnters(s.gameUsers, s.clientGame, c.user, c.comId);
    }
  }

  lemma {:induction false} RunCounts(calls: seq<Call>)
    ensures Counts(After(calls).gameUsers, After(calls).clientGame)
    decreases |calls|
  {
    if calls != [] {
      RunCounts(calls[..|calls| - 1]);
      StepKeepsCounts(After(calls[..|calls| - 1]), calls[|calls| - 1]);
    }
  }

  ghost function Sum(games: map<string, int>): int
    decreases |games|
  {
    if games == map[] then 0
    else
      var g :| g in games;
      games[g] + Sum(games - {g})
  }

  lemma UserHasGame(games: map<string, int>, clients: map<int, string>, user: int)
    requires Counts(games, clients)
    ensures user !in clients || clients[user] in games
  {
    if user in clients {
      assert user in UsersOf(clients, clients[user]);
    }
  }

  /** An exact histogram sums to the number of users in a game. */
  lemma {:induction false} SumIsUsers(games: map<string, int>, clients: map<int, string>)
    requires Counts(games, clients)
    ensures Sum(games) == |clients|
    decreases |games|
  {
    if games == map[] {
      forall u ensures u !in clients {
        UserHasGame(games, clients, u);
      }
    } else {
      var g :| g in games && Sum(games) == games[g] + Sum(games - {g});
      var there := UsersOf(clients, g);
      var rest := clients - there;
      forall h | h != g ensures UsersOf(rest, h) == UsersOf(clients, h) {
      }
      assert UsersOf(rest, g) == {};
      SumIsUsers(games - {g}, rest);
      assert rest.Keys == clients.Keys - there && there <= clients.Keys;
    }
  }

  /** After any run: every entry is positive and the number of users last seen in that game, and the entries
      sum to the number of users seen in any. */
  lemma ReachableHistogram(calls: seq<Call>)
    ensures var s := After(calls);
            && (forall g :: g in s.gameUsers <==> UsersOf(s.clientGame, g) != {})
            && (forall g :: g in s.gameUsers ==> s.gameUsers[g] == |UsersOf(s.clientGame, g)| && s.gameUsers[g] > 0)
            && Sum(s.gameUsers) == |s.clientGame|
  {
    RunCounts(calls);
    SumIsUsers(After(calls).gameUsers, After(calls).clientGame);
  }

  // ---------------------------------------------------------------------------------------------
  // The state against the history

  /** The last game a user touched since the user's last logout; "" if none. */
  function LastGame(calls: seq<Call>, user: int): string {
    if calls == [] then ""
    else
      var c := calls[|calls| - 1];
      if c == Logout(user) then ""
      else if c.TouchGame? && c.user == user && c.comId != "" then c.comId
      else LastGame(calls[..|calls| - 1], user)
  }

  lemma {:induction false} GameIsLastTouched(calls: seq<Call>, user: int)
    ensures var clients := After(calls).clientGame;
            && (user in clients <==> LastGame(calls, user) != "")
            && (user in clients ==> clients[user] == LastGame(calls, user))
    decreases |calls|
  {
    if calls != [] {
      GameIsLastTouched(calls[..|calls| - 1], user);
    }
  }

  function Logins(calls: seq<Call>): nat {
    if calls == [] then 0 else Logins(calls[..|calls| - 1]) + if calls[|calls| - 1].Login? then 1 else 0
  }

  function Logouts(calls: seq<Call>): nat {
    if calls == [] then 0 else Logouts(calls[..|calls| - 1]) + if calls[|calls| - 1].Logout? then 1 else 0
  }

  /** No prefix holds more logouts than logins. */
  predicate Matched(calls: seq<Call>) {
    calls == [] || (Matched(calls[..|calls| - 1]) && Logouts(calls) <= Logins(calls))
  }

  /** The total is never negative, and is logins less logouts exactly when no logout came without its login. */
  lemma {:induction false} TotalOnline(calls: seq<Call>)
    ensures After(calls).totalOnline >= 0 && After(calls).totalOnline >= Logins(calls) - Logouts(calls)
    ensures After(calls).totalOnline == Logins(calls) - Logouts(calls) <==> Matched(calls)
    decreases |calls|
  {
    if calls != [] {
      TotalOnline(calls[..|calls| - 1]);
    }
  }

  // ---------------------------------------------------------------------------------------------
  // The counters, changed in place

  class SharedUsage {
    var totalOnline: int
    var gameUsers: map<string, int>
    var clientGame: map<int, string>

    function View(): State
      reads this
    {
      State(totalOnline, gameUsers, clientGame)
    }

    constructor ()
      ensures View() == NEW_STATE
    {
      totalOnline, gameUsers, clientGame := 0, map[], map[];
    }

    method UsageOnLogin()
      modifies this
      ensures View() == Step(old(View()), Login)
    {
      totalOnline := totalOnline + 1;
    }

    method UsageOnLogout(userId: int)
      modifies this
      ensures View() == Step(old(View()), Logout(userId))
    {
      if totalOnline > 0 {
        totalOnline := totalOnline - 1;
      }
      if userId in clientGame {
        var g := clientGame[userId];
        if g in gameUsers {
          gameUsers := gameUsers[g := gameUsers[g] - 1];
          if gameUsers[g] <= 0 {
            gameUsers := gameUsers - {g};
          }
        }
        clientGame := clientGame - {userId};
      }
    }

    /** True when the user's game is new or has changed. */
    method UsageTouchGame(userId: int, comId: string) returns (changed: bool)
      modifies this
      ensures (View(), changed) == Touched(old(View()), userId, comId)
    {
      if comId == "" {
        return false;
      }
      if userId in clientGame {
        var g := clientGame[userId];
        if g == comId {
          return false;
        }
        if g in gameUsers {
          gameUsers := gameUsers[g := gameUsers[g] - 1];
          if gameUsers[g] <= 0 {
            gameUsers := gameUsers - {g};
          }
        }
        assert gameUsers == Less(old(gameUsers), g);
      }
      clientGame := clientGame[userId := comId];
      gameUsers := gameUsers[comId := (if comId in gameUsers then gameUsers[comId] else 0) + 1];
      changed := true;
    }
  }
}
