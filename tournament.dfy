/** A tournament: its participants, the teams they belong to, and its status. The teams
    dictionary keeps insertion order, which decides which team `get_participant_team`
    reports first. Notifications sent on the message bus are not modelled. */
module Tournament {
  import opened Common
  import PyDict

  datatype Status = Created | Active | Paused | Completed

  function StatusName(s: Status): string
  {
    match s
    case Created => "created"
    case Active => "active"
    case Paused => "paused"
    case Completed => "completed"
  }

  /** `TournamentStatus(v)`: one of the four names, or ValueError (None). */
  function ParseStatus(v: Value): Option<Status>
  {
    if v == Str("created") then Some(Created)
    else if v == Str("active") then Some(Active)
    else if v == Str("paused") then Some(Paused)
    else if v == Str("completed") then Some(Completed)
    else None
  }

  /** A status is accepted exactly when it is the name of one of the four statuses. */
  lemma ParseStatusExact(v: Value, s: Status)
    ensures ParseStatus(v) == Some(s) <==> v == Str(StatusName(s))
  {
  }

  type Teams = PyDict.Dict<string, seq<Value>>

  /** A key of the data dictionary: missing, or present with a value. */
  datatype Field<T> = Absent | Present(value: T)

  /** A value that is not a dictionary. */
  type NonDict = v: Value | !v.Dict? witness Null

  /** What may be stored under "teams": a dictionary of member lists, or a value that is
      not a dictionary at all. */
  datatype TeamsValue = TeamDict(entries: Teams) | NotADict(other: NonDict)

  /** The data dictionary `from_dict` reads and `to_dict` writes. */
  datatype Data = Data(
    id: Field<Value>,
    name: Field<Value>,
    participants: Field<Value>,
    teams: Field<TeamsValue>,
    status: Field<Value>,
    createdAt: Field<Value>,
    createdBy: Field<Value>,
    config: Field<Value>)

  datatype Error =
    | MissingKey(key: string)        // KeyError
    | InvalidStatus(status: Value)   // ValueError from TournamentStatus
    | NotAString(field: string)      // a truthy non-string name or creator has no strip()
    | EmptyName
    | EmptyCreator
    | ParticipantsNotList
    | TeamsNotDict

  datatype Record = Record(
    id: Value,
    name: string,
    participants: seq<Value>,
    teams: Teams,
    status: Status,
    createdAt: Value,
    createdBy: string,
    config: Value)

  function GetField<T>(f: Field<T>, default: T): T
  {
    if f.Present? then f.value else default
  }

  /** The check of `_validate` on the name and the creator: falsy or blank is `empty`. */
  function NonBlank(v: Value, empty: Error, key: string): (r: Result<string, Error>)
    ensures r.Ok? <==> v.Str? && Strip(v.s) != ""
    ensures r.Ok? ==> Str(r.value) == v
  {
    if !Truthy(v) then Err(empty)
    else if !v.Str? then Err(NotAString(key))
    else if Strip(v.s) == "" then Err(empty)
    else Ok(v.s)
  }

  /** `Tournament(data)`: the constructor's reads in their order, then `_validate`.
      `freshId` stands for a new uuid and `now` for the current time. */
  function Build(d: Data, freshId: Value, now: Value): Result<Record, Error>
  {
    if d.name.Absent? then Err(MissingKey("name"))
    else
      var statusValue := GetField(d.status, Str("created"));
      var status := ParseStatus(statusValue);
      if status.None? then Err(InvalidStatus(statusValue))
      else if d.createdBy.Absent? then Err(MissingKey("created_by"))
      else
        var name := NonBlank(d.name.value, EmptyName, "name");
        var creator := NonBlank(d.createdBy.value, EmptyCreator, "created_by");
        var participants := GetField(d.participants, List([]));
        var teams := GetField(d.teams, TeamDict([]));
        if name.Err? then Err(name.error)
        else if creator.Err? then Err(creator.error)
        else if !participants.List? then Err(ParticipantsNotList)
        else if !teams.TeamDict? then Err(TeamsNotDict)
        else Ok(Record(GetField(d.id, freshId), name.value, participants.items, teams.entries,
                       status.value, GetField(d.createdAt, now), creator.value, GetField(d.config, Dict(map[]))))
  }

  /** `to_dict` */
  function ToData(r: Record): Data
  {
    Data(Present(r.id), Present(Str(r.name)), Present(List(r.participants)), Present(TeamDict(r.teams)),
         Present(Str(StatusName(r.status))), Present(r.createdAt), Present(Str(r.createdBy)), Present(r.config))
  }

  /** A name and a creator that are not blank. */
  predicate WellFormed(r: Record)
  {
    Strip(r.name) != "" && Strip(r.createdBy) != ""
  }

  /** Every tournament that can be built has a non-blank name and creator. */
  lemma BuildIsWellFormed(d: Data, freshId: Value, now: Value)
    requires Build(d, freshId, now).Ok?
    ensures WellFormed(Build(d, freshId, now).value)
  {
    var name := NonBlank(d.name.value, EmptyName, "name");
    var creator := NonBlank(d.createdBy.value, EmptyCreator, "created_by");
    assert name.Ok? && creator.Ok?;
    var r := Build(d, freshId, now).value;
    assert r.name == name.value && r.createdBy == creator.value;
  }

  /** A name or creator that is empty, None or only whitespace is refused. */
  lemma BuildRefusesBlank(d: Data, freshId: Value, now: Value)
    requires d.name.Present? && d.createdBy.Present?
    requires (d.name.value.Str? && Strip(d.name.value.s) == "") || d.name.value == Null
             || (d.createdBy.value.Str? && Strip(d.createdBy.value.s) == "") || d.createdBy.value == Null
    ensures Build(d, freshId, now).Err?
  {
  }

  /** The constructor accepts exactly a teams dictionary: any other value under "teams"
      is refused once the other checks pass, and a dictionary never is. */
  lemma BuildTeamsMustBeDict(d: Data, freshId: Value, now: Value)
    requires Build(d.(teams := Present(TeamDict([]))), freshId, now).Ok?
    ensures d.teams.Present? && d.teams.value.NotADict? <==> Build(d, freshId, now) == Err(TeamsNotDict)
    ensures d.teams.Present? && d.teams.value.TeamDict? ==> Build(d, freshId, now).Ok?
  {
  }

  /** The required keys are read first: a missing name is reported before anything else,
      a missing creator right after the status check. */
  lemma BuildMissingKeys(d: Data, freshId: Value, now: Value)
    ensures d.name.Absent? ==> Build(d, freshId, now) == Err(MissingKey("name"))
    ensures d.name.Present? && ParseStatus(GetField(d.status, Str("created"))).Some? && d.createdBy.Absent?
            ==> Build(d, freshId, now) == Err(MissingKey("created_by"))
  {
  }

  /** `from_dict(to_dict())` gives back the same tournament, so its `to_dict` is the same. */
  lemma RoundTrip(r: Record, freshId: Value, now: Value)
    requires WellFormed(r)
    ensures Build(ToData(r), freshId, now) == Ok(r)
    ensures ToData(Build(ToData(r), freshId, now).value) == ToData(r)
  {
    var d := ToData(r);
    ParseStatusExact(Str(StatusName(r.status)), r.status);
    assert NonBlank(d.name.value, EmptyName, "name") == Ok(r.name);
    assert NonBlank(d.createdBy.value, EmptyCreator, "created_by") == Ok(r.createdBy);
  }

  // ---------------------------------------------------------------------------
  // Membership

  /** Participants and each team's members are listed once, team names are distinct, and
      every team member is a participant. */
  predicate Consistent(r: Record)
  {
    && Distinct(r.participants)
    && PyDict.Valid(r.teams)
    && forall i :: 0 <= i < |r.teams| ==>
         Distinct(r.teams[i].1) && forall u :: u in r.teams[i].1 ==> u in r.participants
  }

  function Members(teams: Teams, team: string): seq<Value>
  {
    var m := PyDict.Get(teams, team);
    if m.Some? then m.value else []
  }

  /** `add_participant`: refused for a participant; otherwise appended, with the team
      created when missing and the user added to it once. */
  function Add(r: Record, u: Value, team: string): (bool, Record)
  {
    if u in r.participants then (false, r)
    else
      var ms := Members(r.teams, team);
      (true, r.(participants := r.participants + [u],
                teams := PyDict.Put(r.teams, team, if u in ms then ms else ms + [u])))
  }

  lemma AddExistingChangesNothing(r: Record, u: Value, team: string)
    requires u in r.participants
    ensures Add(r, u, team) == (false, r)
  {
  }

  /** A new participant is appended once and becomes a member of the named team; the
      other teams are unchanged and consistency is kept. */
  lemma AddJoinsTeam(r: Record, u: Value, team: string)
    requires Consistent(r) && u !in r.participants
    ensures var (ok, r') := Add(r, u, team);
      && ok
      && r'.participants == r.participants + [u]
      && u in Members(r'.teams, team)
      && (forall t :: t != team ==> PyDict.Get(r'.teams, t) == PyDict.Get(r.teams, t))
      && Consistent(r')
  {
    var ms := Members(r.teams, team);
    var ms' := if u in ms then ms else ms + [u];
    var r' := Add(r, u, team).1;
    PyDict.PutGet(r.teams, team, ms');
    forall i | 0 <= i < |r'.teams|
      ensures Distinct(r'.teams[i].1) && forall x :: x in r'.teams[i].1 ==> x in r'.participants
    {
      var t := r'.teams[i].0;
      assert PyDict.Find(r'.teams, t) == i;
      if t == team {
        assert r'.teams[i].1 == ms';
        if PyDict.HasKey(r.teams, team) {
          var j := PyDict.Find(r.teams, team);
          assert ms == r.teams[j].1;
        }
      } else {
        var j := PyDict.Find(r.teams, t);
        assert PyDict.Get(r'.teams, t) == PyDict.Get(r.teams, t);
        assert r'.teams[i].1 == r.teams[j].1;
      }
    }
  }

  /** Each team without the user, as `list.remove` leaves it. */
  function StripMember(teams: Teams, u: Value): (r: Teams)
    ensures |r| == |teams| && PyDict.Keys(r) == PyDict.Keys(teams)
    ensures forall i :: 0 <= i < |r| ==> r[i].1 == RemoveFirst(teams[i].1, u)
  {
    seq(|teams|, i requires 0 <= i < |teams| => (teams[i].0, RemoveFirst(teams[i].1, u)))
  }

  /** `{name: members for name, members in teams.items() if members}` */
  function DropEmpty(teams: Teams): (r: Teams)
    ensures forall p :: p in r <==> p in teams && p.1 != []
  {
    if teams == [] then []
    else
      var last := teams[|teams| - 1];
      assert teams == teams[..|teams| - 1] + [last];
      DropEmpty(teams[..|teams| - 1]) + (if last.1 != [] then [last] else [])
  }

  /** Every key of the kept teams is a key of the original ones. */
  lemma DropEmptyKeys(teams: Teams)
    ensures forall k :: k in PyDict.Keys(DropEmpty(teams)) ==> k in PyDict.Keys(teams)
  {
    var r := DropEmpty(teams);
    forall k | k in PyDict.Keys(r) ensures k in PyDict.Keys(teams) {
      var j :| 0 <= j < |r| && PyDict.Keys(r)[j] == k;
      assert r[j] in r;
      var m :| 0 <= m < |teams| && teams[m] == r[j];
      assert PyDict.Keys(teams)[m] == k;
    }
  }

  lemma {:induction false} DropEmptyValid(teams: Teams)
    requires PyDict.Valid(teams)
    ensures PyDict.Valid(DropEmpty(teams))
    decreases |teams|
  {
    if teams != [] {
      var last := teams[|teams| - 1];
      var init := teams[..|teams| - 1];
      assert PyDict.Keys(init) == PyDict.Keys(teams)[..|teams| - 1];
      DropEmptyValid(init);
      DropEmptyKeys(init);
      var rest := DropEmpty(init);
      if last.1 != [] {
        assert last.0 !in PyDict.Keys(init);
        assert last.0 !in PyDict.Keys(rest);
        assert PyDict.Keys(rest + [last]) == PyDict.Keys(rest) + [last.0];
      }
    }
  }

  /** `remove_participant`: refused for a non-participant; otherwise the user leaves the
      participants and every team holding them, and emptied teams are dropped. */
  function Remove(r: Record, u: Value): (bool, Record)
  {
    if u !in r.participants then (false, r)
    else (true, r.(participants := RemoveFirst(r.participants, u), teams := DropEmpty(StripMember(r.teams, u))))
  }

  lemma RemoveAbsentChangesNothing(r: Record, u: Value)
    requires u !in r.participants
    ensures Remove(r, u) == (false, r)
  {
  }

  /** Removing a participant takes them out of the tournament and out of every team,
      leaves no empty team, keeps the other participants and keeps consistency. */
  lemma RemoveLeavesNoTrace(r: Record, u: Value)
    requires Consistent(r) && u in r.participants
    ensures var (ok, r') := Remove(r, u);
      && ok
      && u !in r'.participants
      && (forall x :: x in r'.participants <==> x in r.participants && x != u)
      && (forall i :: 0 <= i < |r'.teams| ==> u !in r'.teams[i].1 && r'.teams[i].1 != [])
      && Consistent(r')
  {
    var r' := Remove(r, u).1;
    RemoveFirstDistinct(r.participants, u);
    var stripped := StripMember(r.teams, u);
    DropEmptyValid(stripped);
    forall i | 0 <= i < |r'.teams|
      ensures u !in r'.teams[i].1 && r'.teams[i].1 != []
      ensures Distinct(r'.teams[i].1) && forall x :: x in r'.teams[i].1 ==> x in r'.participants
    {
      assert r'.teams[i] in stripped;
      var j :| 0 <= j < |stripped| && stripped[j] == r'.teams[i];
      StrippedTeam(r, u, j);
    }
  }

  lemma StrippedTeam(r: Record, u: Value, j: nat)
    requires Consistent(r) && j < |r.teams|
    ensures var ms := RemoveFirst(r.teams[j].1, u);
      && u !in ms && Distinct(ms)
      && forall x :: x in ms ==> x in RemoveFirst(r.participants, u)
  {
    RemoveFirstDistinct(r.participants, u);
    RemoveFirstDistinct(r.teams[j].1, u);
  }

  /** `get_participant_team`: the first team, in dictionary order, whose members include the user. */
  function TeamOf(teams: Teams, u: Value): (t: Option<string>)
    ensures t.Some? ==> exists i :: 0 <= i < |teams| && teams[i].0 == t.value && u in teams[i].1
    ensures t.None? <==> forall i :: 0 <= i < |teams| ==> u !in teams[i].1
  {
    if teams == [] then None
    else if u in teams[0].1 then Some(teams[0].0)
    else
      var rest := TeamOf(teams[1..], u);
      assert forall i :: 0 < i < |teams| ==> teams[i] == teams[1..][i - 1];
      rest
  }

  /** A team reported for a participant does hold them. */
  lemma TeamOfHoldsUser(teams: Teams, u: Value)
    requires PyDict.Valid(teams) && TeamOf(teams, u).Some?
    ensures u in Members(teams, TeamOf(teams, u).value)
  {
    var t := TeamOf(teams, u).value;
    var i :| 0 <= i < |teams| && teams[i].0 == t && u in teams[i].1;
    assert PyDict.Find(teams, t) == i;
  }

  /** `update_status`: an accepted status replaces the old one; anything else is refused
      and leaves the tournament as it was. */
  function UpdateStatus(r: Record, v: Value): (bool, Record)
  {
    var s := ParseStatus(v);
    if s.Some? then (true, r.(status := s.value)) else (false, r)
  }

  lemma UpdateStatusAcceptsFourNames(r: Record, v: Value)
    ensures UpdateStatus(r, v).0 <==> v in {Str("created"), Str("active"), Str("paused"), Str("completed")}
    ensures !UpdateStatus(r, v).0 ==> UpdateStatus(r, v).1 == r
    ensures UpdateStatus(r, v).0 ==> Str(StatusName(UpdateStatus(r, v).1.status)) == v
  {
  }

  // ---------------------------------------------------------------------------
  // The tournament object

  class Tournament {
    var id: Value
    var name: string
    var participants: seq<Value>
    var teams: Teams
    var status: Status
    var createdAt: Value
    var createdBy: string
    var config: Value

    function Snapshot(): Record
      reads this
    {
      Record(id, name, participants, teams, status, createdAt, createdBy, config)
    }

    constructor (r: Record)
      ensures Snapshot() == r
    {
      id, name, participants, teams, status := r.id, r.name, r.participants, r.teams, r.status;
      createdAt, createdBy, config := r.createdAt, r.createdBy, r.config;
    }

    method AddParticipant(username: Value, teamName: string) returns (ok: bool)
      modifies this
      ensures (ok, Snapshot()) == Add(old(Snapshot()), username, teamName)
    {
      if username in participants {
        return false;
      }
      participants := participants + [username];
      if !PyDict.HasKey(teams, teamName) {
        teams := PyDict.Put(teams, teamName, []);
      }
      var members := PyDict.Get(teams, teamName).value;
      if username !in members {
        teams := PyDict.Put(teams, teamName, members + [username]);
      }
      AddPutTwice(old(teams), teamName, username);
      return true;
    }

    method RemoveParticipant(username: Value) returns (ok: bool)
      modifies this
      ensures (ok, Snapshot()) == Remove(old(Snapshot()), username)
    {
      if username !in participants {
        return false;
      }
      participants := RemoveFirst(participants, username);
      StripMemberFromTeams(username);
      DropEmptyTeams();
      return true;
    }

    /** The loop over the teams that removes the user from each team holding them. */
    method StripMemberFromTeams(username: Value)
      modifies this
      ensures teams == StripMember(old(teams), username)
      ensures participants == old(participants) && id == old(id) && name == old(name) && status == old(status)
      ensures createdAt == old(createdAt) && createdBy == old(createdBy) && config == old(config)
    {
      var i := 0;
      while i < |teams|
        invariant 0 <= i <= |teams| && |teams| == |old(teams)|
        invariant forall k :: 0 <= k < i ==> teams[k] == StripMember(old(teams), username)[k]
        invariant forall k :: i <= k < |teams| ==> teams[k] == old(teams)[k]
        invariant participants == old(participants) && id == old(id) && name == old(name) && status == old(status)
        invariant createdAt == old(createdAt) && createdBy == old(createdBy) && config == old(config)
      {
        if username in teams[i].1 {
          teams := teams[i := (teams[i].0, RemoveFirst(teams[i].1, username))];
        }
        i := i + 1;
      }
    }

    /** `self.teams = {name: members for name, members in self.teams.items() if members}` */
    method DropEmptyTeams()
      modifies this
      ensures teams == DropEmpty(old(teams))
      ensures participants == old(participants) && id == old(id) && name == old(name) && status == old(status)
      ensures createdAt == old(createdAt) && createdBy == old(createdBy) && config == old(config)
    {
      var kept: Teams := [];
      var j := 0;
      while j < |teams|
        invariant 0 <= j <= |teams|
        invariant kept == DropEmpty(teams[..j])
      {
        assert teams[..j + 1][..j] == teams[..j];
        if teams[j].1 != [] {
          kept := kept + [teams[j]];
        }
        j := j + 1;
      }
      assert teams[..j] == teams;
      teams := kept;
    }

    method GetParticipantTeam(username: Value) returns (t: Option<string>)
      ensures t == TeamOf(teams, username)
    {
      var i := 0;
      while i < |teams|
        invariant 0 <= i <= |teams|
        invariant TeamOf(teams, username) == TeamOf(teams[i..], username)
      {
        if username in teams[i].1 {
          return Some(teams[i].0);
        }
        assert teams[i..][1..] == teams[i + 1..];
        i := i + 1;
      }
      return None;
    }

    method SetStatus(newStatus: Value) returns (ok: bool)
      modifies this
      ensures (ok, Snapshot()) == UpdateStatus(old(Snapshot()), newStatus)
    {
      var s := ParseStatus(newStatus);
      if s.None? {
        return false;
      }
      status := s.value;
      return true;
    }

    function ToDict(): (d: Data)
      reads this
      ensures d == ToData(Snapshot())
    {
      Data(Present(id), Present(Str(name)), Present(List(participants)), Present(TeamDict(teams)),
           Present(Str(StatusName(status))), Present(createdAt), Present(Str(createdBy)), Present(config))
    }
  }

  /** `from_dict`: a new tournament, or the error its constructor raises. */
  method FromDict(d: Data, freshId: Value, now: Value) returns (r: Result<Tournament, Error>)
    ensures Build(d, freshId, now).Err? ==> r == Err(Build(d, freshId, now).error)
    ensures Build(d, freshId, now).Ok? ==> r.Ok? && fresh(r.value) && r.value.Snapshot() == Build(d, freshId, now).value
  {
    var b := Build(d, freshId, now);
    if b.Err? {
      return Err(b.error);
    }
    var t := new Tournament(b.value);
    return Ok(t);
  }

  /** Creating the team first and then adding the user is the single write `Add` describes. */
  lemma AddPutTwice(teams: Teams, team: string, u: Value)
    ensures var t1 := if PyDict.HasKey(teams, team) then teams else PyDict.Put(teams, team, []);
      var ms := PyDict.Get(t1, team).value;
      (if u !in ms then PyDict.Put(t1, team, ms + [u]) else t1)
      == PyDict.Put(teams, team, if u in Members(teams, team) then Members(teams, team) else Members(teams, team) + [u])
  {
    if !PyDict.HasKey(teams, team) {
      var t1 := PyDict.Put(teams, team, []);
      assert PyDict.Keys(t1) == PyDict.Keys(teams) + [team];
      assert PyDict.Find(t1, team) == |teams|;
    }
  }
}
