/** `GameSessionService`: the list of running sessions, one per table, and
    the decisions taken when a player joins or leaves. */
module SessionService {

  import opened Wrappers
  import opened Lists
  import opened Players
  import Tables
  import opened Sessions

  // ---------------------------------------------------------------------
  // Finding a session

  /** Does the search for `id` stop at session `s`? A session without a game
      stops the search only when `nullStops` holds: the unguarded lookup
      dereferences the game and throws there, the null-safe lookup skips it. */
  predicate StopsAt(s: GameSessionModel, id: int, nullStops: bool)
    reads s
  {
    if s.currentGame == null then nullStops else s.currentGame.id == id
  }

  /** The position of the first session at which the search stops, or -1. */
  function FirstStop(ss: seq<GameSessionModel>, id: int, nullStops: bool): (i: int)
    reads ss
    ensures -1 <= i < |ss|
    ensures i == -1 <==> forall j :: 0 <= j < |ss| ==> !StopsAt(ss[j], id, nullStops)
    ensures i >= 0 ==> StopsAt(ss[i], id, nullStops) && forall j :: 0 <= j < i ==> !StopsAt(ss[j], id, nullStops)
  {
    if |ss| == 0 then -1
    else if StopsAt(ss[0], id, nullStops) then 0
    else
      var j := FirstStop(ss[1..], id, nullStops);
      assert forall k :: 0 < k < |ss| ==> ss[k] == ss[1..][k - 1];
      if j == -1 then -1 else j + 1
  }

  /** The result of `GetGameSessionById`: the session, null, or the null
      reference exception raised by a session without a game. */
  datatype Lookup = Found(session: GameSessionModel) | NotFound | GameIsNull

  /** The outcome of `JoinGameSessionAsync`: the new player's identifier,
      null for a full table or a taken name, or the exception thrown when the
      session's game or pending list is null. */
  datatype JoinResult = Joined(playerId: int) | Refused | ObjectsNull

  // ---------------------------------------------------------------------
  // Choosing a chair

  /** The chairs of the players, in order. */
  function Chairs(ps: seq<Player>): (cs: seq<int>)
    ensures |cs| == |ps|
    ensures forall i :: 0 <= i < |ps| ==> cs[i] == ps[i].chair
  {
    if ps == [] then [] else [ps[0].chair] + Chairs(ps[1..])
  }

  /** The first chair from `k` to `MaxPlayers` not in `chairs`, or -1. */
  function FreeChairFrom(chairs: seq<int>, k: int): (c: int)
    requires k >= 1
    ensures c == -1 <==> forall m :: k <= m <= Tables.MaxPlayers ==> m in chairs
    ensures c != -1 ==> k <= c <= Tables.MaxPlayers && c !in chairs &&
                        forall m :: k <= m < c ==> m in chairs
    decreases Tables.MaxPlayers - k
  {
    if k > Tables.MaxPlayers then -1
    else if k !in chairs then k
    else FreeChairFrom(chairs, k + 1)
  }

  /** `Range(1, MaxPlayers).Except(chairs).FirstOrDefault(-1)`: the lowest
      chair from 1 to 8 that no pending player holds, or -1 when all are
      held. */
  function FreeChair(chairs: seq<int>): (c: int)
    ensures c == -1 <==> forall m :: 1 <= m <= Tables.MaxPlayers ==> m in chairs
    ensures c != -1 ==> 1 <= c <= Tables.MaxPlayers && c !in chairs &&
                        forall m :: 1 <= m < c ==> m in chairs
  {
    FreeChairFrom(chairs, 1)
  }

  /** With fewer than eight pending players some chair is free. */
  lemma FreeChairExists(chairs: seq<int>)
    requires |chairs| < Tables.MaxPlayers
    ensures FreeChair(chairs) != -1
  {
    if FreeChair(chairs) == -1 {
      CoversRange(chairs, 1, Tables.MaxPlayers);
    }
  }

  /** A list holding every number from `lo` to `hi` has at least that many
      elements. */
  lemma {:induction false} CoversRange(s: seq<int>, lo: int, hi: int)
    requires forall m :: lo <= m <= hi ==> m in s
    ensures |s| >= hi - lo + 1
    decreases hi - lo
  {
    if lo <= hi {
      var r := RemoveFirst(s, hi);
      forall m | lo <= m <= hi - 1 ensures m in r {
        assert m in s;
        assert multiset(s)[m] > 0;
        assert multiset(r)[m] == multiset(s)[m];
        assert m in multiset(r);
      }
      CoversRange(r, lo, hi - 1);
    }
  }

  // ---------------------------------------------------------------------
  // Names compared ignoring case

  /** Upper-case mapping of the ASCII letters; other characters are kept. */
  function ToUpper(ch: char): char
  {
    if 'a' <= ch <= 'z' then (ch as int - 32) as char else ch
  }

  /** The upper-cased string. */
  function UpperCase(s: string): (r: string)
    ensures |r| == |s|
    ensures forall i :: 0 <= i < |s| ==> r[i] == ToUpper(s[i])
  {
    if s == [] then [] else [ToUpper(s[0])] + UpperCase(s[1..])
  }

  /** `Equals(..., StringComparison.OrdinalIgnoreCase)` on ASCII text. */
  predicate EqualsIgnoreCase(a: string, b: string)
  {
    UpperCase(a) == UpperCase(b)
  }

  /** Two names match ignoring case exactly when they have the same length
      and agree letter by letter after upper-casing. */
  lemma EqualsIgnoreCaseMeaning(a: string, b: string)
    ensures EqualsIgnoreCase(a, b) <==>
              |a| == |b| && forall i :: 0 <= i < |a| ==> ToUpper(a[i]) == ToUpper(b[i])
  {
    if |a| == |b| && forall i :: 0 <= i < |a| ==> ToUpper(a[i]) == ToUpper(b[i]) {
      assert UpperCase(a) == UpperCase(b);
    }
  }

  /** Equal names match ignoring case; names with no lower-case letter
      match ignoring case exactly when they are equal. */
  lemma {:induction false} EqualsIgnoreCaseOrdinal(a: string, b: string)
    ensures a == b ==> EqualsIgnoreCase(a, b)
    ensures NoLowerCase(a) && NoLowerCase(b) ==> (EqualsIgnoreCase(a, b) <==> a == b)
  {
    if NoLowerCase(a) && NoLowerCase(b) {
      UpperCaseKeeps(a);
      UpperCaseKeeps(b);
    }
  }

  /** No character of `s` is an ASCII lower-case letter. */
  predicate NoLowerCase(s: string)
  {
    forall i :: 0 <= i < |s| ==> !('a' <= s[i] <= 'z')
  }

  /** Upper-casing leaves a string without lower-case letters unchanged. */
  lemma UpperCaseKeeps(s: string)
    requires NoLowerCase(s)
    ensures UpperCase(s) == s
  {
    assert forall i :: 0 <= i < |s| ==> UpperCase(s)[i] == s[i];
  }

  /** Some pending player already has this name, ignoring case. */
  predicate NameTaken(ps: seq<Player>, name: string)
  {
    exists i :: 0 <= i < |ps| && EqualsIgnoreCase(ps[i].name, name)
  }

  // ---------------------------------------------------------------------
  // The session list

  /** At most one session per table: sessions with games have different
      table identifiers. */
  ghost predicate DistinctTables(ss: seq<GameSessionModel>)
    reads (set s | s in ss)`currentGame
  {
    forall i, j :: 0 <= i < j < |ss| && ss[i].currentGame != null && ss[j].currentGame != null ==>
      ss[i].currentGame.id != ss[j].currentGame.id
  }

  /** Removing a session keeps the sessions' tables distinct. */
  lemma RemoveKeepsDistinctTables(ss: seq<GameSessionModel>, s: GameSessionModel)
    requires DistinctTables(ss)
    ensures DistinctTables(RemoveFirst(ss, s))
  {
    if s in ss {
      var r := RemoveFirst(ss, s);
      forall i, j | 0 <= i < j < |r| && r[i].currentGame != null && r[j].currentGame != null
        ensures r[i].currentGame.id != r[j].currentGame.id
      {
        RemoveFirstAt(ss, s, i);
        RemoveFirstAt(ss, s, j);
      }
    }
  }

  /** With distinct tables, a session with a game occurs at most once. */
  lemma OccursOnce(ss: seq<GameSessionModel>, s: GameSessionModel)
    requires DistinctTables(ss) && s.currentGame != null
    ensures s !in RemoveFirst(ss, s)
  {
    if s in ss {
      var k := IndexOf(ss, s);
      var r := RemoveFirst(ss, s);
    }
  }

  class GameSessionService {
    var gameSessions: seq<GameSessionModel>

    /** No running sessions. */
    constructor ()
      ensures gameSessions == []
    {
      gameSessions := [];
    }

    /** Every table has at most one running session. */
    ghost predicate OneSessionPerTable()
      reads this`gameSessions, (set s | s in gameSessions)`currentGame
    {
      DistinctTables(gameSessions)
    }

    /** `GetGameSessionById`: the first session whose game has this
        identifier. A session without a game met before it makes the
        source throw. */
    function GetGameSessionById(sessionId: int): (r: Lookup)
      reads this, gameSessions
      ensures r.NotFound? <==> forall j :: 0 <= j < |gameSessions| ==>
                gameSessions[j].currentGame != null && gameSessions[j].currentGame.id != sessionId
      ensures r.Found? ==>
                exists i :: 0 <= i < |gameSessions| && gameSessions[i] == r.session &&
                  r.session.currentGame != null && r.session.currentGame.id == sessionId &&
                  forall j :: 0 <= j < i ==> gameSessions[j].currentGame != null && gameSessions[j].currentGame.id != sessionId
      ensures r.GameIsNull? ==>
                exists i :: 0 <= i < |gameSessions| && gameSessions[i].currentGame == null &&
                  forall j :: 0 <= j < i ==> gameSessions[j].currentGame != null && gameSessions[j].currentGame.id != sessionId
    {
      var i := FirstStop(gameSessions, sessionId, true);
      if i == -1 then NotFound
      else if gameSessions[i].currentGame == null then GameIsNull
      else Found(gameSessions[i])
    }

    /** `JoinGameSessionAsync`: finds the table's session (sessions without
        a game are skipped) or opens one; refuses a full table or a name
        already pending; otherwise seats a new player on the lowest free
        chair of the pending list. `playerId` stands for the identifier the
        player derives from a random GUID; `keys` shuffle a new session's
        deck. */
    method JoinGameSessionAsync(table: Tables.TableModel, playerName: string, playerId: int, keys: seq<int>)
      returns (r: JoinResult)
      requires |keys| == 52
      modifies this`gameSessions, (set s | s in gameSessions)`playersPending
      ensures old(OneSessionPerTable()) ==> OneSessionPerTable()
      // No session for the table: one new session is appended, with the
      // player alone on chair 1; the full-table and name checks are skipped.
      ensures var i := old(FirstStop(gameSessions, table.id, false));
        i == -1 ==>
          r == Joined(playerId) &&
          |gameSessions| == |old(gameSessions)| + 1 &&
          gameSessions[..|old(gameSessions)|] == old(gameSessions) &&
          var s := gameSessions[|gameSessions| - 1];
          fresh(s) && s.currentGame == table && s.playersPending.Some? &&
          |s.playersPending.value| == 1 && fresh(s.playersPending.value[0]) &&
          s.playersPending.value[0].id == playerId && s.playersPending.value[0].chair == 1 &&
          s.playersPending.value[0].name == playerName
      // An existing session: the list of sessions stays as it is.
      ensures var i := old(FirstStop(gameSessions, table.id, false));
        i >= 0 ==> gameSessions == old(gameSessions)
      // A full table refuses, with no change.
      ensures var i := old(FirstStop(gameSessions, table.id, false));
        i >= 0 && old(gameSessions[i].currentGame.currentPlayers) >= Tables.MaxPlayers ==>
          r == Refused && gameSessions[i].playersPending == old(gameSessions[i].playersPending)
      // A name already pending (ignoring case) is refused, with no change.
      ensures var i := old(FirstStop(gameSessions, table.id, false));
        i >= 0 && old(gameSessions[i].currentGame.currentPlayers) < Tables.MaxPlayers &&
        old(gameSessions[i].playersPending).Some? &&
        NameTaken(old(gameSessions[i].playersPending).value, playerName) ==>
          r == Refused && gameSessions[i].playersPending == old(gameSessions[i].playersPending)
      // A null pending list throws, with no change.
      ensures var i := old(FirstStop(gameSessions, table.id, false));
        i >= 0 && old(gameSessions[i].currentGame.currentPlayers) < Tables.MaxPlayers &&
        old(gameSessions[i].playersPending).None? ==>
          r == ObjectsNull && gameSessions[i].playersPending == old(gameSessions[i].playersPending)
      // Otherwise the player is appended on the lowest free chair.
      ensures var i := old(FirstStop(gameSessions, table.id, false));
        i >= 0 && old(gameSessions[i].currentGame.currentPlayers) < Tables.MaxPlayers &&
        old(gameSessions[i].playersPending).Some? &&
        !NameTaken(old(gameSessions[i].playersPending).value, playerName) ==>
          var before := old(gameSessions[i].playersPending).value;
          r == Joined(playerId) && gameSessions[i].playersPending.Some? &&
          var after := gameSessions[i].playersPending.value;
          |after| == |before| + 1 && after[..|before|] == before &&
          fresh(after[|before|]) && after[|before|].id == playerId &&
          after[|before|].name == playerName && after[|before|].chair == FreeChair(Chairs(before))
      // Sessions other than the table's keep their pending lists.
      ensures var i := old(FirstStop(gameSessions, table.id, false));
        forall s :: s in old(gameSessions) && (i == -1 || s != old(gameSessions)[i]) ==>
          s.playersPending == old(s.playersPending)
    {
      var i := FirstStop(gameSessions, table.id, false);
      var session: GameSessionModel;
      if i == -1 {
        session := new GameSessionModel.ForTable(table, keys);
        gameSessions := gameSessions + [session];
      } else {
        session := gameSessions[i];
        if session.currentGame.currentPlayers >= Tables.MaxPlayers {
          return Refused;
        }
        if session.playersPending.Some? && NameTaken(session.playersPending.value, playerName) {
          return Refused;
        }
      }
      if session.currentGame == null || session.playersPending.None? {
        return ObjectsNull;
      }
      var chair := FreeChair(Chairs(session.playersPending.value));
      var player := new Player(playerId, chair, playerName);
      session.playersPending := Some(session.playersPending.value + [player]);
      r := Joined(playerId);
    }

    /** `RemoveSession`: nothing happens for a null session or a session
        without a game; otherwise the game's player count is reset and the
        session is taken out of the list. */
    method RemoveSession(session: GameSessionModel?)
      modifies this`gameSessions
      modifies (if session != null && session.currentGame != null then {session.currentGame} else {})`currentPlayers
      ensures session == null || session.currentGame == null ==> gameSessions == old(gameSessions)
      ensures session != null && session.currentGame != null ==>
                session.currentGame.currentPlayers == 0 &&
                gameSessions == RemoveFirst(old(gameSessions), session)
      ensures old(OneSessionPerTable()) ==> OneSessionPerTable()
      ensures old(OneSessionPerTable()) && session != null && session.currentGame != null ==>
                session !in gameSessions
    {
      if session == null || session.currentGame == null {
        return;
      }
      session.currentGame.currentPlayers := 0;
      if DistinctTables(gameSessions) {
        RemoveKeepsDistinctTables(gameSessions, session);
        OccursOnce(gameSessions, session);
      }
      gameSessions := RemoveFirst(gameSessions, session);
    }

    /** `RemovePlayerFromSessionAsync`: the player leaves the pending list;
        when that leaves the list empty, the session is removed. */
    method RemovePlayerFromSessionAsync(session: GameSessionModel, player: Player)
      modifies this`gameSessions, session`playersPending
      modifies (if session.currentGame != null then {session.currentGame} else {})`currentPlayers
      ensures old(session.playersPending).None? ==> session.playersPending == None
      ensures old(session.playersPending).Some? ==>
                session.playersPending == Some(RemoveFirst(old(session.playersPending).value, player))
      ensures session.playersPending == Some([]) && session.currentGame != null ==>
                session.currentGame.currentPlayers == 0 &&
                gameSessions == RemoveFirst(old(gameSessions), session)
      ensures session.playersPending != Some([]) || session.currentGame == null ==>
                gameSessions == old(gameSessions)
      ensures session.playersPending != Some([]) && session.currentGame != null ==>
                session.currentGame.currentPlayers == old(session.currentGame.currentPlayers)
      ensures old(OneSessionPerTable()) ==> OneSessionPerTable()
    {
      if session.playersPending.Some? {
        session.playersPending := Some(RemoveFirst(session.playersPending.value, player));
      }
      if session.playersPending == Some([]) {
        RemoveSession(session);
      }
    }
  }
}
