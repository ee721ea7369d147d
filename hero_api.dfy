/** The hero/team service of fastapi_tutorial/simple_api/main.py: two tables
    keyed by their integer primary keys, and one method per HTTP handler. Each
    handler runs as one atomic step (its session commits once or not at all),
    and an `HTTPException` or a validation failure becomes an `Err`. */
module HeroApi {
  import opened Wrappers
  import opened Models
  import Sql

  /** `Query(le=100)` on both list endpoints. */
  const MaxLimit := 100
  /** The default `limit` of `read_heroes`. */
  const DefaultHeroLimit := 100
  /** The default `limit` of `read_teams`: 0, so a request without `limit` gets
      no teams (kept as written). */
  const DefaultTeamLimit := 0

  /** Every hero row carries the primary key it is stored under. */
  ghost predicate HeroesKeyed(heroes: map<int, Hero>) {
    forall k | k in heroes :: heroes[k].id == Some(k)
  }

  /** Every team row carries the primary key it is stored under. */
  ghost predicate TeamsKeyed(teams: map<int, Team>) {
    forall k | k in teams :: teams[k].id == Some(k)
  }

  /** The integers a hero row binds when it is written: `age` and `team_id`. */
  predicate HeroBindable(b: HeroBase) {
    Sql.BindableOption(b.age) && Sql.BindableOption(b.teamId)
  }

  /** The integers a hero patch binds at commit: a sent `age` or `team_id`. */
  predicate HeroUpdateBindable(u: HeroUpdate) {
    (u.age.Value? ==> Sql.Bindable(u.age.value)) && (u.teamId.Value? ==> Sql.Bindable(u.teamId.value))
  }

  /** A patch that binds, applied to a row that binds, gives a row that binds. */
  lemma PatchHeroBindable(h: Hero, u: HeroUpdate)
    requires StorableHeroUpdate(u) && HeroBindable(h.base) && HeroUpdateBindable(u)
    ensures HeroBindable(PatchHero(h, u).base)
  {
    PatchHeroFields(h, u);
  }

  /** Every stored hero row binds. */
  ghost predicate HeroesBind(heroes: map<int, Hero>) {
    forall k | k in heroes :: HeroBindable(heroes[k].base)
  }

  /** Patching one stored row with a patch that binds keeps every row under
      its own key and every row binding. */
  lemma PatchKeepsRows(heroes: map<int, Hero>, heroId: int, u: HeroUpdate)
    requires HeroesKeyed(heroes) && HeroesBind(heroes) && heroId in heroes
    requires StorableHeroUpdate(u) && HeroUpdateBindable(u)
    ensures var after := heroes[heroId := PatchHero(heroes[heroId], u)];
      HeroesKeyed(after) && HeroesBind(after)
  {
    PatchHeroFields(heroes[heroId], u);
    PatchHeroBindable(heroes[heroId], u);
  }

  predicate HeroIdsAscending(rows: seq<HeroRead>) {
    forall i, j | 0 <= i < j < |rows| :: rows[i].id < rows[j].id
  }

  predicate TeamIdsAscending(rows: seq<TeamRead>) {
    forall i, j | 0 <= i < j < |rows| :: rows[i].id < rows[j].id
  }

  /** The heroes stored under `ids`, in that order, as read views. */
  function HeroRows(ids: seq<int>, heroes: map<int, Hero>): (rows: seq<HeroRead>)
    requires forall i | 0 <= i < |ids| :: ids[i] in heroes
    ensures |rows| == |ids|
    ensures forall i | 0 <= i < |ids| :: rows[i].id == ids[i] && rows[i].base == heroes[ids[i]].base
    decreases |ids|
  {
    if ids == [] then []
    else
      var k := ids[0];
      [HeroRead(k, heroes[k].base)] + HeroRows(ids[1..], heroes)
  }

  /** The teams stored under `ids`, in that order, as read views. */
  function TeamRows(ids: seq<int>, teams: map<int, Team>): (rows: seq<TeamRead>)
    requires forall i | 0 <= i < |ids| :: ids[i] in teams
    ensures |rows| == |ids|
    ensures forall i | 0 <= i < |ids| :: rows[i].id == ids[i] && rows[i].base == teams[ids[i]].base
    decreases |ids|
  {
    if ids == [] then []
    else
      var k := ids[0];
      [TeamRead(k, teams[k].base)] + TeamRows(ids[1..], teams)
  }

  /** What listing the rows in key order gives: each stored hero once, in
      ascending id order, each row the read view of the stored record. */
  lemma HeroRowsInKeyOrder(heroes: map<int, Hero>, ids: seq<int>, rows: seq<HeroRead>)
    requires HeroesKeyed(heroes) && ids == Sql.KeyOrder(heroes.Keys)
    requires rows == HeroRows(ids, heroes)
    ensures |rows| == |heroes|
    ensures HeroIdsAscending(rows)
    ensures forall i | 0 <= i < |rows| :: rows[i].id in heroes && HeroOfRead(rows[i]) == heroes[rows[i].id]
    ensures forall k | k in heroes :: ToHeroRead(heroes[k]) in rows
  {
    assert |heroes.Keys| == |heroes|;
    forall i, j | 0 <= i < j < |rows| ensures rows[i].id < rows[j].id {
      assert rows[i].id == ids[i] && rows[j].id == ids[j];
    }
    forall i | 0 <= i < |rows| ensures rows[i].id in heroes && HeroOfRead(rows[i]) == heroes[rows[i].id] {
      var k := ids[i];
      assert rows[i] == HeroRead(k, heroes[k].base);
    }
    forall k | k in heroes ensures ToHeroRead(heroes[k]) in rows {
      var i :| 0 <= i < |ids| && ids[i] == k;
      assert rows[i] == HeroRead(k, heroes[k].base);
    }
  }

  /** What listing the rows in key order gives: each stored team once, in
      ascending id order, each row the read view of the stored record. */
  lemma TeamRowsInKeyOrder(teams: map<int, Team>, ids: seq<int>, rows: seq<TeamRead>)
    requires TeamsKeyed(teams) && ids == Sql.KeyOrder(teams.Keys)
    requires rows == TeamRows(ids, teams)
    ensures |rows| == |teams|
    ensures TeamIdsAscending(rows)
    ensures forall i | 0 <= i < |rows| :: rows[i].id in teams && TeamOfRead(rows[i]) == teams[rows[i].id]
    ensures forall k | k in teams :: ToTeamRead(teams[k]) in rows
  {
    assert |teams.Keys| == |teams|;
    forall i, j | 0 <= i < j < |rows| ensures rows[i].id < rows[j].id {
      assert rows[i].id == ids[i] && rows[j].id == ids[j];
    }
    forall i | 0 <= i < |rows| ensures rows[i].id in teams && TeamOfRead(rows[i]) == teams[rows[i].id] {
      var k := ids[i];
      assert rows[i] == TeamRead(k, teams[k].base);
    }
    forall k | k in teams ensures ToTeamRead(teams[k]) in rows {
      var i :| 0 <= i < |ids| && ids[i] == k;
      assert rows[i] == TeamRead(k, teams[k].base);
    }
  }

  /** `select(Hero)`: every stored hero exactly once, in id order, the scan
      order `Sql.KeyOrder` assumes. */
  function AllHeroes(heroes: map<int, Hero>): (rows: seq<HeroRead>)
    requires HeroesKeyed(heroes)
    ensures |rows| == |heroes|
    ensures HeroIdsAscending(rows)
    ensures forall i | 0 <= i < |rows| :: rows[i].id in heroes && HeroOfRead(rows[i]) == heroes[rows[i].id]
    ensures forall k | k in heroes :: ToHeroRead(heroes[k]) in rows
  {
    var ids := Sql.KeyOrder(heroes.Keys);
    HeroRowsInKeyOrder(heroes, ids, HeroRows(ids, heroes));
    HeroRows(ids, heroes)
  }

  /** `select(Team)`: every stored team exactly once, in id order, the scan
      order `Sql.KeyOrder` assumes. */
  function AllTeams(teams: map<int, Team>): (rows: seq<TeamRead>)
    requires TeamsKeyed(teams)
    ensures |rows| == |teams|
    ensures TeamIdsAscending(rows)
    ensures forall i | 0 <= i < |rows| :: rows[i].id in teams && TeamOfRead(rows[i]) == teams[rows[i].id]
    ensures forall k | k in teams :: ToTeamRead(teams[k]) in rows
  {
    var ids := Sql.KeyOrder(teams.Keys);
    TeamRowsInKeyOrder(teams, ids, TeamRows(ids, teams));
    TeamRows(ids, teams)
  }

  /** `Hero.team`: the team whose id is the hero's `team_id`. SQLite does not
      enforce the foreign key here, so a `team_id` naming no team gives `None`. */
  function TeamOfHero(h: Hero, teams: map<int, Team>): (t: Option<TeamRead>)
    requires TeamsKeyed(teams)
    ensures t.Some? <==> h.base.teamId.Some? && h.base.teamId.value in teams
    ensures t.Some? ==> t.value.id == h.base.teamId.value && TeamOfRead(t.value) == teams[t.value.id]
  {
    if h.base.teamId.Some? && h.base.teamId.value in teams then
      var t := h.base.teamId.value;
      Some(TeamRead(t, teams[t].base))
    else
      None
  }

  /** The rows of `rows` whose `team_id` is `teamId`, in their order
      (`OnTeamAppend`, `OnTeamKeepsAll`, `OnTeamCounts`). */
  function OnTeam(rows: seq<HeroRead>, teamId: int): (sub: seq<HeroRead>)
    ensures forall r :: r in sub <==> r in rows && r.base.teamId == Some(teamId)
    ensures |sub| <= |rows|
    ensures HeroIdsAscending(rows) ==> HeroIdsAscending(sub)
    decreases |rows|
  {
    if rows == [] then []
    else
      var rest := OnTeam(rows[1..], teamId);
      if rows[0].base.teamId == Some(teamId) then [rows[0]] + rest else rest
  }

  /** Filtering distributes over concatenation: the rows kept from `a + b`
      are those kept from `a`, followed by those kept from `b`. With
      `OnTeamKeepsAll` on single rows this pins the order of the result. */
  lemma {:induction false} OnTeamAppend(a: seq<HeroRead>, b: seq<HeroRead>, teamId: int)
    ensures OnTeam(a + b, teamId) == OnTeam(a, teamId) + OnTeam(b, teamId)
    decreases |a|
  {
    if a == [] {
      assert a + b == b;
    } else {
      assert (a + b)[1..] == a[1..] + b;
      OnTeamAppend(a[1..], b, teamId);
    }
  }

  /** A row on the team is kept, one that is not is dropped. */
  lemma OnTeamKeepsAll(r: HeroRead, teamId: int)
    ensures OnTeam([r], teamId) == if r.base.teamId == Some(teamId) then [r] else []
  {
    assert [r][1..] == [];
  }

  /** Every row on the team is kept as often as it occurs, every other row not
      at all. */
  lemma {:induction false} OnTeamCounts(rows: seq<HeroRead>, teamId: int, r: HeroRead)
    ensures multiset(OnTeam(rows, teamId))[r] == if r.base.teamId == Some(teamId) then multiset(rows)[r] else 0
    decreases |rows|
  {
    if rows != [] {
      OnTeamCounts(rows[1..], teamId, r);
      assert rows == [rows[0]] + rows[1..];
      assert multiset(rows) == multiset([rows[0]]) + multiset(rows[1..]);
    }
  }

  /** `Team.heroes`, the back-populated side of `Hero.team`: exactly the stored
      heroes whose `team_id` is the team's id, in id order, the scan order
      `Sql.KeyOrder` assumes. */
  function HeroesOfTeam(teamId: int, heroes: map<int, Hero>): (rows: seq<HeroRead>)
    requires HeroesKeyed(heroes)
    ensures HeroIdsAscending(rows)
    ensures forall r :: r in rows <==> r.id in heroes && HeroOfRead(r) == heroes[r.id] && r.base.teamId == Some(teamId)
  {
    OnTeam(AllHeroes(heroes), teamId)
  }

  /** Both sides of the one-to-many relation agree: a hero is listed in a
      team's `heroes` exactly when that team is the hero's `team`. */
  lemma BackPopulates(heroes: map<int, Hero>, teams: map<int, Team>, heroId: int, teamId: int)
    requires HeroesKeyed(heroes) && TeamsKeyed(teams)
    requires heroId in heroes && teamId in teams
    ensures ToHeroRead(heroes[heroId]) in HeroesOfTeam(teamId, heroes)
        <==> TeamOfHero(heroes[heroId], teams) == Some(ToTeamRead(teams[teamId]))
  {
  }

  /** The `HeroReadWithTeam` response for a stored hero. */
  function HeroWithTeam(h: Hero, teams: map<int, Team>): HeroReadWithTeam
    requires h.id.Some? && TeamsKeyed(teams)
  {
    WithTeam(ToHeroRead(h), TeamOfHero(h, teams))
  }

  /** The `TeamReadWithHeroes` response for a stored team. */
  function TeamWithHeroes(t: Team, heroes: map<int, Hero>): TeamReadWithHeroes
    requires t.id.Some? && HeroesKeyed(heroes)
  {
    WithHeroes(ToTeamRead(t), HeroesOfTeam(t.id.value, heroes))
  }

  /** The `limit` query parameter, `Annotated[int, Query(le=100)]`: a sent value
      above 100 is a 422, an unsent one takes the endpoint's default. Nothing
      bounds it from below. */
  function LimitParam(limit: Option<int>, default: int): (r: Result<int>)
    ensures r.Err? <==> limit.Some? && limit.value > MaxLimit
    ensures r.Err? ==> r.error == Invalid
    ensures r.Ok? ==> r.value == if limit.Some? then limit.value else default
  {
    if limit.Some? && limit.value > MaxLimit then Err(Invalid) else Ok(limit.GetOr(default))
  }

  /** As written, `limit=-1` passes validation and SQLite reads `LIMIT -1` as no
      limit, so a list request returns every row, more than 100 of them once
      the table is that large. */
  lemma NegativeLimitEscapesBound<T>(rows: seq<T>)
    requires |rows| > MaxLimit
    ensures LimitParam(Some(-1), DefaultHeroLimit) == Ok(-1)
    ensures |Sql.OffsetLimit(rows, 0, -1)| == |rows| > MaxLimit
  {
  }

  /** The evidently intended parameter, `Query(ge=0, le=100)`: a sent value
      outside 0..100 is a 422. */
  function BoundedLimitParam(limit: Option<int>, default: int): (r: Result<int>)
    ensures r.Err? <==> limit.Some? && !(0 <= limit.value <= MaxLimit)
    ensures r.Err? ==> r.error == Invalid
    ensures r.Ok? ==> r.value == if limit.Some? then limit.value else default
  {
    if limit.Some? && !(0 <= limit.value <= MaxLimit) then Err(Invalid) else Ok(limit.GetOr(default))
  }

  /** With the intended parameter, a page never holds more than 100 rows, for
      any request and either endpoint's default. */
  lemma BoundedPageAtMost100<T>(rows: seq<T>, offset: int, limit: Option<int>, default: int)
    requires 0 <= default <= MaxLimit
    requires BoundedLimitParam(limit, default).Ok?
    ensures |Sql.OffsetLimit(rows, offset, BoundedLimitParam(limit, default).value)| <= MaxLimit
  {
  }

  /** As written, `read_teams` defaults `limit` to 0: a listing without
      `limit` is empty even when teams are stored. */
  lemma TeamDefaultHidesTeams(teams: map<int, Team>, offset: int)
    requires TeamsKeyed(teams) && |teams| > 0
    ensures |AllTeams(teams)| > 0
    ensures Sql.OffsetLimit(AllTeams(teams), offset, DefaultTeamLimit) == []
  {
  }

  /** The evidently intended default of `read_teams`: the one `read_heroes` has. */
  const IntendedTeamLimit := 100

  /** With the intended default, a listing without `limit` is the first 100
      teams in id order, all of them when there are no more. */
  lemma IntendedTeamDefault(teams: map<int, Team>)
    requires TeamsKeyed(teams)
    ensures var page := Sql.OffsetLimit(AllTeams(teams), 0, IntendedTeamLimit);
      && |page| == (if |teams| < IntendedTeamLimit then |teams| else IntendedTeamLimit)
      && (|teams| <= IntendedTeamLimit ==> page == AllTeams(teams))
  {
    FirstPage(AllTeams(teams), IntendedTeamLimit);
  }

  /** The first page of `limit` rows: all rows when there are no more. */
  lemma FirstPage<T>(rows: seq<T>, limit: nat)
    ensures |Sql.OffsetLimit(rows, 0, limit)| == if |rows| < limit then |rows| else limit
    ensures |rows| <= limit ==> Sql.OffsetLimit(rows, 0, limit) == rows
  {
    var page := Sql.OffsetLimit(rows, 0, limit);
    if |rows| <= limit {
      assert forall i | 0 <= i < |page| :: page[i] == rows[i];
    }
  }

  /** The loop of `update_hero`: `setattr` for each item of
      `hero_update.dict(exclude_unset=True)`, on the loaded record. */
  method ApplyHeroUpdate(hero: Hero, u: HeroUpdate) returns (patched: Hero)
    requires StorableHeroUpdate(u)
    ensures patched == PatchHero(hero, u)
  {
    var items := HeroUpdateItems(u);
    patched := hero;
    for i := 0 to |items|
      invariant patched == SetAll(hero, items[..i])
    {
      assert items[..i + 1][..i] == items[..i];
      patched := SetAttr(patched, items[i]);
    }
    assert items[..|items|] == items;
  }

  /** The database behind the handlers: the `hero` and `team` tables. */
  class Store {
    var heroes: map<int, Hero>
    var teams: map<int, Team>

    ghost predicate Valid()
      reads this
    {
      && HeroesKeyed(heroes) && TeamsKeyed(teams)
      && HeroesBind(heroes)
    }

    /** Freshly created tables are empty. */
    constructor ()
      ensures Valid() && heroes == map[] && teams == map[]
    {
      heroes := map[];
      teams := map[];
    }

    /** POST /heroes/ (`create_hero`): validate the body as `HeroCreate`, insert
        the row under a fresh id and answer its `HeroRead`. A rejected body
        stores nothing, and neither does an `age` or `team_id` outside 64 bits,
        which the INSERT cannot bind. No team lookup is made for `team_id`. */
    method CreateHero(body: HeroBody) returns (r: Result<HeroRead>)
      requires Valid()
      modifies this
      ensures Valid() && teams == old(teams)
      ensures r.Ok? <==> ParseHeroCreate(body).Ok? && HeroBindable(ParseHeroCreate(body).value)
      ensures ParseHeroCreate(body).Err? ==> r == Err(Invalid)
      ensures ParseHeroCreate(body).Ok? && !HeroBindable(ParseHeroCreate(body).value) ==> r == Err(ServerError)
      ensures r.Err? ==> heroes == old(heroes)
      ensures r.Ok? ==> r.value.base == ParseHeroCreate(body).value
      ensures r.Ok? ==> r.value.id == Sql.NextRowId(old(heroes).Keys)
      ensures r.Ok? ==> r.value.id !in old(heroes) && heroes == old(heroes)[r.value.id := HeroOfRead(r.value)]
    {
      var parsed := ParseHeroCreate(body);
      if parsed.Err? {
        return Err(parsed.error);
      }
      if !HeroBindable(parsed.value) {
        return Err(ServerError);
      }
      var id := Sql.NextRowId(heroes.Keys);
      var dbHero := Hero(Some(id), parsed.value);
      heroes := heroes[id := dbHero];
      r := Ok(ToHeroRead(dbHero));
    }

    /** GET /heroes/ (`read_heroes`): the heroes in id order from `offset`, at
        most `limit` of them (default 100); a `limit` above 100 is a 422, and an
        `offset` or `limit` outside 64 bits cannot be bound by the query. */
    method ReadHeroes(offset: int, limit: Option<int>) returns (r: Result<seq<HeroRead>>)
      requires Valid()
      ensures r == Err(Invalid) <==> limit.Some? && limit.value > MaxLimit
      ensures r == Err(ServerError) <==>
        limit.GetOr(DefaultHeroLimit) <= MaxLimit && !(Sql.Bindable(offset) && Sql.Bindable(limit.GetOr(DefaultHeroLimit)))
      ensures r.Ok? <==> limit.GetOr(DefaultHeroLimit) <= MaxLimit && Sql.Bindable(offset) && Sql.Bindable(limit.GetOr(DefaultHeroLimit))
      ensures r.Ok? ==> r.value == Sql.OffsetLimit(AllHeroes(heroes), offset, limit.GetOr(DefaultHeroLimit))
      ensures r.Ok? && limit.GetOr(DefaultHeroLimit) >= 0 ==> |r.value| <= limit.GetOr(DefaultHeroLimit)
      ensures r.Ok? ==> HeroIdsAscending(r.value)
    {
      var lim := LimitParam(limit, DefaultHeroLimit);
      if lim.Err? {
        return Err(lim.error);
      }
      if !(Sql.Bindable(offset) && Sql.Bindable(lim.value)) {
        return Err(ServerError);
      }
      var page := Sql.OffsetLimit(AllHeroes(heroes), offset, lim.value);
      r := Ok(page);
    }

    /** GET /heroes/{hero_id} (`read_hero`): the hero with its team, or 404. An
        id outside 64 bits cannot be bound by the lookup. */
    method ReadHero(heroId: int) returns (r: Result<HeroReadWithTeam>)
      requires Valid()
      ensures !Sql.Bindable(heroId) ==> r == Err(ServerError)
      ensures Sql.Bindable(heroId) && heroId !in heroes ==> r == Err(NotFound)
      ensures r.Ok? <==> Sql.Bindable(heroId) && heroId in heroes
      ensures r.Ok? ==> r.value.id == heroId && r.value.base == heroes[heroId].base
      ensures r.Ok? ==> r.value.team == TeamOfHero(heroes[heroId], teams)
    {
      if !Sql.Bindable(heroId) {
        return Err(ServerError);
      }
      if heroId !in heroes {
        return Err(NotFound);
      }
      r := Ok(HeroWithTeam(heroes[heroId], teams));
    }

    /** PATCH /heroes/{hero_id} (`update_hero`): overwrite exactly the sent
        fields, an explicit null included, and answer the stored row. An
        unknown id is a 404 that changes nothing. A null `name` or
        `secret_name` is assigned and then refused by the NOT NULL columns at
        commit; the model checks it first, with the same outcome: an error and
        no change. So does a sent `age` or `team_id` outside 64 bits, which the
        UPDATE cannot bind, and an id outside 64 bits fails the lookup. */
    method UpdateHero(heroId: int, u: HeroUpdate) returns (r: Result<HeroRead>)
      requires Valid()
      modifies this
      ensures Valid() && teams == old(teams)
      ensures !Sql.Bindable(heroId) ==> r == Err(ServerError) && heroes == old(heroes)
      ensures Sql.Bindable(heroId) && heroId !in old(heroes) ==> r == Err(NotFound) && heroes == old(heroes)
      ensures Sql.Bindable(heroId) && heroId in old(heroes) && !(StorableHeroUpdate(u) && HeroUpdateBindable(u)) ==>
        r == Err(ServerError) && heroes == old(heroes)
      ensures Sql.Bindable(heroId) && heroId in old(heroes) && StorableHeroUpdate(u) && HeroUpdateBindable(u) ==>
        heroes == old(heroes)[heroId := PatchHero(old(heroes)[heroId], u)] && r == Ok(ToHeroRead(heroes[heroId]))
    {
      if !Sql.Bindable(heroId) {
        return Err(ServerError);
      }
      if heroId !in heroes {
        return Err(NotFound);
      }
      if !(StorableHeroUpdate(u) && HeroUpdateBindable(u)) {
        return Err(ServerError);
      }
      var hero := heroes[heroId];
      hero := ApplyHeroUpdate(hero, u);
      PatchKeepsRows(heroes, heroId, u);
      heroes := heroes[heroId := hero];
      r := Ok(ToHeroRead(hero));
    }

    /** DELETE /heroes/{hero_id} (`delete_hero`): remove exactly that row and
        answer `{"ok": true}`; an unknown id is a 404 that changes nothing, and
        an id outside 64 bits fails the lookup. */
    method DeleteHero(heroId: int) returns (r: Result<()>)
      requires Valid()
      modifies this
      ensures Valid() && teams == old(teams)
      ensures !Sql.Bindable(heroId) ==> r == Err(ServerError) && heroes == old(heroes)
      ensures Sql.Bindable(heroId) && heroId in old(heroes) ==> r == Ok(()) && heroes == old(heroes) - {heroId}
      ensures Sql.Bindable(heroId) && heroId !in old(heroes) ==> r == Err(NotFound) && heroes == old(heroes)
    {
      if !Sql.Bindable(heroId) {
        return Err(ServerError);
      }
      if heroId !in heroes {
        return Err(NotFound);
      }
      heroes := heroes - {heroId};
      r := Ok(());
    }

    /** POST /teams/ (`create_team`): validate the body as `TeamCreate`, insert
        the row under a fresh id and answer its `TeamRead`. */
    method CreateTeam(body: TeamBody) returns (r: Result<TeamRead>)
      requires Valid()
      modifies this
      ensures Valid() && heroes == old(heroes)
      ensures r.Ok? <==> ParseTeamCreate(body).Ok?
      ensures r.Err? ==> r.error == Invalid && teams == old(teams)
      ensures r.Ok? ==> r.value.base == ParseTeamCreate(body).value
      ensures r.Ok? ==> r.value.id == Sql.NextRowId(old(teams).Keys)
      ensures r.Ok? ==> r.value.id !in old(teams) && teams == old(teams)[r.value.id := TeamOfRead(r.value)]
    {
      var parsed := ParseTeamCreate(body);
      if parsed.Err? {
        return Err(parsed.error);
      }
      var id := Sql.NextRowId(teams.Keys);
      var dbTeam := Team(Some(id), parsed.value);
      teams := teams[id := dbTeam];
      r := Ok(ToTeamRead(dbTeam));
    }

    /** GET /teams/ (`read_teams`): the teams in id order from `offset`, at most
        `limit` of them; the default limit is 0, so without `limit` the answer
        is empty. An `offset` or `limit` outside 64 bits cannot be bound. */
    method ReadTeams(offset: int, limit: Option<int>) returns (r: Result<seq<TeamRead>>)
      requires Valid()
      ensures r == Err(Invalid) <==> limit.Some? && limit.value > MaxLimit
      ensures r == Err(ServerError) <==>
        limit.GetOr(DefaultTeamLimit) <= MaxLimit && !(Sql.Bindable(offset) && Sql.Bindable(limit.GetOr(DefaultTeamLimit)))
      ensures r.Ok? <==> limit.GetOr(DefaultTeamLimit) <= MaxLimit && Sql.Bindable(offset) && Sql.Bindable(limit.GetOr(DefaultTeamLimit))
      ensures r.Ok? ==> r.value == Sql.OffsetLimit(AllTeams(teams), offset, limit.GetOr(DefaultTeamLimit))
      ensures limit.None? && Sql.Bindable(offset) ==> r == Ok([])
      ensures r.Ok? ==> TeamIdsAscending(r.value)
    {
      var lim := LimitParam(limit, DefaultTeamLimit);
      if lim.Err? {
        return Err(lim.error);
      }
      if !(Sql.Bindable(offset) && Sql.Bindable(lim.value)) {
        return Err(ServerError);
      }
      var page := Sql.OffsetLimit(AllTeams(teams), offset, lim.value);
      r := Ok(page);
    }

    /** GET /teams/{team_id}/ (`read_team`): the team with its heroes, or 404. An
        id outside 64 bits cannot be bound by the lookup. */
    method ReadTeam(teamId: int) returns (r: Result<TeamReadWithHeroes>)
      requires Valid()
      ensures !Sql.Bindable(teamId) ==> r == Err(ServerError)
      ensures Sql.Bindable(teamId) && teamId !in teams ==> r == Err(NotFound)
      ensures r.Ok? <==> Sql.Bindable(teamId) && teamId in teams
      ensures r.Ok? ==> r.value.id == teamId && r.value.base == teams[teamId].base
      ensures r.Ok? ==> r.value.heroes == HeroesOfTeam(teamId, heroes)
    {
      if !Sql.Bindable(teamId) {
        return Err(ServerError);
      }
      if teamId !in teams {
        return Err(NotFound);
      }
      r := Ok(TeamWithHeroes(teams[teamId], heroes));
    }

    /** PATCH /teams/{team_id}/ (`update_team`) as written. It loops over the
        dict itself, not its `.items()`, so each iteration unpacks a key string
        into `key, value`, which raises `ValueError` unless the string has two
        characters. No key of `TeamUpdate` has two characters, so every
        non-empty patch fails on its first key, before any `setattr`: the team
        is left as it was. Only the empty patch succeeds, and answers the team
        unchanged. An id outside 64 bits fails the lookup first. */
    method UpdateTeam(teamId: int, u: TeamUpdate) returns (r: Result<TeamRead>)
      requires Valid()
      ensures !Sql.Bindable(teamId) ==> r == Err(ServerError)
      ensures Sql.Bindable(teamId) && teamId !in teams ==> r == Err(NotFound)
      ensures Sql.Bindable(teamId) && teamId in teams && TeamUpdateKeys(u) == [] ==> r == Ok(ToTeamRead(teams[teamId]))
      ensures Sql.Bindable(teamId) && teamId in teams && TeamUpdateKeys(u) != [] ==> r == Err(ServerError)
    {
      if !Sql.Bindable(teamId) {
        return Err(ServerError);
      }
      if teamId !in teams {
        return Err(NotFound);
      }
      var keys := TeamUpdateKeys(u);
      if keys != [] {
        // Unpacking keys[0] into two names fails: it is not two characters long.
        assert |keys[0]| != 2;
        return Err(ServerError);
      }
      r := Ok(ToTeamRead(teams[teamId]));
    }

    /** `update_team` as evidently intended, the same loop as `update_hero` over
        `.items()`: each sent field is overwritten, nothing else changes; a
        null name or headquarters is refused by the NOT NULL columns, and an id
        outside 64 bits fails the lookup. */
    method UpdateTeamIntended(teamId: int, u: TeamUpdate) returns (r: Result<TeamRead>)
      requires Valid()
      modifies this
      ensures Valid() && heroes == old(heroes)
      ensures !Sql.Bindable(teamId) ==> r == Err(ServerError) && teams == old(teams)
      ensures Sql.Bindable(teamId) && teamId !in old(teams) ==> r == Err(NotFound) && teams == old(teams)
      ensures Sql.Bindable(teamId) && teamId in old(teams) && !StorableTeamUpdate(u) ==> r == Err(ServerError) && teams == old(teams)
      ensures Sql.Bindable(teamId) && teamId in old(teams) && StorableTeamUpdate(u) ==>
        teams == old(teams)[teamId := PatchTeam(old(teams)[teamId], u)] && r == Ok(ToTeamRead(teams[teamId]))
    {
      if !Sql.Bindable(teamId) {
        return Err(ServerError);
      }
      if teamId !in teams {
        return Err(NotFound);
      }
      if !StorableTeamUpdate(u) {
        return Err(ServerError);
      }
      var team := PatchTeam(teams[teamId], u);
      teams := teams[teamId := team];
      r := Ok(ToTeamRead(team));
    }
  }

  // ------------------------------------------------ request sequences

  /** `test_create_hero`: a body with only a name and a secret name creates a
      hero with no age and an id. */
  method CreateHeroScenario() returns (r: Result<HeroRead>)
    ensures r.Ok? && r.value.base == HeroBase("John", None, "Jack", None)
  {
    var store := new Store();
    r := store.CreateHero(HeroBody(Value("John"), Unset, Value("Jack"), Unset));
  }

  /** `test_create_hero_incomplete` and `test_create_hero_invalid`: a missing or
      null `secret_name` is a 422, and nothing is stored. */
  method RejectedCreateScenario() returns (missing: Result<HeroRead>, nulled: Result<HeroRead>, stored: nat)
    ensures missing == Err(Invalid) && nulled == Err(Invalid) && stored == 0
  {
    var store := new Store();
    missing := store.CreateHero(HeroBody(Value("John"), Unset, Unset, Unset));
    nulled := store.CreateHero(HeroBody(Value("John"), Unset, Null, Unset));
    stored := |store.heroes|;
  }

  /** `test_read_heroes`: two heroes stored one after the other are listed by
      a request without parameters, in the order they were stored. */
  method ReadHeroesScenario() returns (listed: Result<seq<HeroRead>>, first: Result<HeroRead>, second: Result<HeroRead>)
    ensures first.Ok? && second.Ok? && listed == Ok([first.value, second.value])
    ensures first.value.base.name == "Hero1" && second.value.base.name == "Hero2"
  {
    var store;
    store, first, second := StoreTwoHeroes();
    listed := store.ReadHeroes(0, None);
    FirstPageOfTwo(store.heroes, first.value, second.value);
  }

  /** The default first page of the heroes stored under ids 1 and 2 is those
      two, in id order. */
  lemma FirstPageOfTwo(heroes: map<int, Hero>, a: HeroRead, b: HeroRead)
    requires a.id == 1 && b.id == 2
    requires heroes == map[1 := HeroOfRead(a), 2 := HeroOfRead(b)]
    ensures Sql.OffsetLimit(AllHeroes(heroes), 0, DefaultHeroLimit) == [a, b]
  {
    ListTwoHeroes(heroes, 1, 2);
    HeroReadLossless(HeroOfRead(a), a);
    HeroReadLossless(HeroOfRead(b), b);
    var all := AllHeroes(heroes);
    assert all == [a, b];
    FirstPage(all, DefaultHeroLimit);
  }

  /** Two creates on empty tables: ids 1 and 2, in that order. */
  method StoreTwoHeroes() returns (store: Store, first: Result<HeroRead>, second: Result<HeroRead>)
    ensures fresh(store) && store.Valid()
    ensures first == Ok(HeroRead(1, HeroBase("Hero1", None, "secret1", None)))
    ensures second == Ok(HeroRead(2, HeroBase("Hero2", None, "secret2", None)))
    ensures store.heroes == map[1 := HeroOfRead(first.value), 2 := HeroOfRead(second.value)]
  {
    store := new Store();
    first := store.CreateHero(HeroBody(Value("Hero1"), Unset, Value("secret1"), Unset));
    assert store.heroes == map[1 := HeroOfRead(first.value)];
    second := store.CreateHero(HeroBody(Value("Hero2"), Unset, Value("secret2"), Unset));
    assert Sql.NextRowId({1}) == 2;
  }

  /** A table of two heroes is listed as the smaller id, then the larger. */
  lemma ListTwoHeroes(heroes: map<int, Hero>, a: int, b: int)
    requires HeroesKeyed(heroes) && heroes.Keys == {a, b} && a < b
    ensures AllHeroes(heroes) == [ToHeroRead(heroes[a]), ToHeroRead(heroes[b])]
  {
    var rows := AllHeroes(heroes);
    assert |heroes| == |heroes.Keys| == 2;
    assert ToHeroRead(heroes[a]) in rows && ToHeroRead(heroes[b]) in rows;
    assert rows[0].id < rows[1].id;
  }

  /** A team, then a hero on it, both getting id 1; reading the hero nests
      the team; patching only its age keeps its names and team. */
  method DreamTeamScenario() returns (read: Result<HeroReadWithTeam>, patched: Result<HeroRead>)
    ensures read == Ok(HeroReadWithTeam(1, HeroBase("Pepe", Some(30), "Foo", Some(1)),
                                        Some(TeamRead(1, TeamBase("DreamTeam", "DT HQ")))))
    ensures patched == Ok(HeroRead(1, HeroBase("Pepe", Some(31), "Foo", Some(1))))
  {
    var store := new Store();
    var team := store.CreateTeam(TeamBody(Value("DreamTeam"), Value("DT HQ")));
    var hero := store.CreateHero(HeroBody(Value("Pepe"), Value(30), Value("Foo"), Value(1)));
    read := store.ReadHero(1);
    patched := store.UpdateHero(1, HeroBody(Unset, Value(31), Unset, Unset));
    PatchHeroFields(Hero(Some(1), HeroBase("Pepe", Some(30), "Foo", Some(1))), HeroBody(Unset, Value(31), Unset, Unset));
  }

  /** Deleting a hero twice: the first answers ok, the second and a later read
      are 404s. */
  method DeleteTwiceScenario() returns (first: Result<()>, second: Result<()>, after: Result<HeroReadWithTeam>)
    ensures first == Ok(()) && second == Err(NotFound) && after == Err(NotFound)
  {
    var store := new Store();
    var hero := store.CreateHero(HeroBody(Value("Hercules"), Unset, Value("Mighty One"), Unset));
    first := store.DeleteHero(hero.value.id);
    second := store.DeleteHero(hero.value.id);
    after := store.ReadHero(hero.value.id);
  }

  /** `update_team` as written: renaming a team fails and leaves it as it was,
      where the intended handler renames it. */
  method UpdateTeamScenario() returns (asWritten: Result<TeamRead>, intended: Result<TeamRead>)
    ensures asWritten == Err(ServerError)
    ensures intended == Ok(TeamRead(1, TeamBase("Avengers", "DT HQ")))
  {
    var store := new Store();
    var team := store.CreateTeam(TeamBody(Value("DreamTeam"), Value("DT HQ")));
    asWritten := store.UpdateTeam(1, TeamBody(Value("Avengers"), Unset));
    intended := store.UpdateTeamIntended(1, TeamBody(Value("Avengers"), Unset));
  }
}
