/** The many-to-many variant of fastapi_tutorial/sqlmodel_many_to_many.py:
    heroes and teams joined by the `HeroTeamLink` link table. `Team.heroes`
    and `Hero.teams` are two views of that one table, and changing either
    list adds or removes link rows when the session commits. Each function
    of the script is one session, so one atomic step here. */
module ManyToMany {
  import opened Wrappers
  import Sql

  /** The `hero` table row of this variant (no `team_id` column). */
  datatype Hero = Hero(id: Option<int>, name: string, secretName: string, age: Option<int>)

  /** The `team` table row. */
  datatype Team = Team(id: Option<int>, name: string, headquarters: string)

  /** A row of the link table. `(team_id, hero_id)` is its composite primary
      key, so a set of links holds each pair at most once. */
  datatype HeroTeamLink = HeroTeamLink(teamId: int, heroId: int)

  /** The ids of `Hero.teams`: the teams linked to the hero. */
  function TeamsOfHero(links: set<HeroTeamLink>, heroId: int): (teams: set<int>)
    ensures forall t :: t in teams <==> HeroTeamLink(t, heroId) in links
  {
    var teams := set l | l in links && l.heroId == heroId :: l.teamId;
    assert forall t :: HeroTeamLink(t, heroId) in links ==> t in teams by {
      forall t | HeroTeamLink(t, heroId) in links ensures t in teams {
        var l := HeroTeamLink(t, heroId);
        assert l in links && l.heroId == heroId;
      }
    }
    teams
  }

  /** The ids of `Team.heroes`: the heroes linked to the team. */
  function HeroesOfTeam(links: set<HeroTeamLink>, teamId: int): (heroes: set<int>)
    ensures forall h :: h in heroes <==> HeroTeamLink(teamId, h) in links
  {
    var heroes := set l | l in links && l.teamId == teamId :: l.heroId;
    assert forall h :: HeroTeamLink(teamId, h) in links ==> h in heroes by {
      forall h | HeroTeamLink(teamId, h) in links ensures h in heroes {
        var l := HeroTeamLink(teamId, h);
        assert l in links && l.teamId == teamId;
      }
    }
    heroes
  }

  /** `back_populates`: team `t` is among hero `h`'s teams exactly when `h` is
      among `t`'s heroes. */
  lemma ViewsAgree(links: set<HeroTeamLink>, teamId: int, heroId: int)
    ensures teamId in TeamsOfHero(links, heroId) <==> heroId in HeroesOfTeam(links, teamId)
  {
  }

  /** The links left when every link of `heroId` is removed. */
  function WithoutHero(links: set<HeroTeamLink>, heroId: int): (rest: set<HeroTeamLink>)
    ensures forall l :: l in rest <==> l in links && l.heroId != heroId
  {
    set l | l in links && l.heroId != heroId
  }

  /** Keys of the heroes called `name`: what `where(Hero.name == name)` selects. */
  function HeroesNamed(heroes: map<int, Hero>, name: string): (ids: set<int>)
    ensures forall k :: k in ids <==> k in heroes && heroes[k].name == name
  {
    set k | k in heroes && heroes[k].name == name
  }

  /** Keys of the teams called `name`. */
  function TeamsNamed(teams: map<int, Team>, name: string): (ids: set<int>)
    ensures forall k :: k in ids <==> k in teams && teams[k].name == name
  {
    set k | k in teams && teams[k].name == name
  }

  /** A hero that no link row names has no teams. */
  lemma UnlinkedHeroHasNoTeams(links: set<HeroTeamLink>, heroId: int)
    requires forall l | l in links :: l.heroId != heroId
    ensures TeamsOfHero(links, heroId) == {}
  {
    if t :| t in TeamsOfHero(links, heroId) {
      assert HeroTeamLink(t, heroId) in links;
    }
  }

  /** The three tables of this variant. */
  class Database {
    var heroes: map<int, Hero>
    var teams: map<int, Team>
    var links: set<HeroTeamLink>

    /** Rows carry their keys, and the link table's foreign keys name stored
        rows on both sides. */
    ghost predicate Valid()
      reads this
    {
      && (forall k | k in heroes :: heroes[k].id == Some(k))
      && (forall k | k in teams :: teams[k].id == Some(k))
      && (forall l | l in links :: l.teamId in teams && l.heroId in heroes)
    }

    constructor ()
      ensures Valid() && heroes == map[] && teams == map[] && links == {}
    {
      heroes, teams, links := map[], map[], {};
    }

    /** Flushing a new `Hero`: the row is inserted under a fresh rowid. */
    method InsertHero(name: string, secretName: string, age: Option<int>) returns (id: int)
      requires Valid()
      modifies this
      ensures Valid() && teams == old(teams) && links == old(links)
      ensures id == Sql.NextRowId(old(heroes).Keys) && id !in old(heroes)
      ensures heroes == old(heroes)[id := Hero(Some(id), name, secretName, age)]
    {
      id := Sql.NextRowId(heroes.Keys);
      heroes := heroes[id := Hero(Some(id), name, secretName, age)];
    }

    /** Flushing a new `Team`: the row is inserted under a fresh rowid. */
    method InsertTeam(name: string, headquarters: string) returns (id: int)
      requires Valid()
      modifies this
      ensures Valid() && heroes == old(heroes) && links == old(links)
      ensures id == Sql.NextRowId(old(teams).Keys) && id !in old(teams)
      ensures teams == old(teams)[id := Team(Some(id), name, headquarters)]
    {
      id := Sql.NextRowId(teams.Keys);
      teams := teams[id := Team(Some(id), name, headquarters)];
    }

    /** `team.heroes.append(hero)` (or a hero listed in a new team's
        `heroes`), once flushed: exactly the link `(team, hero)` is added, no
        row of either table changes. The hero and the team have ids by then:
        their rows are inserted before the link rows that refer to them. */
    method Link(teamId: int, heroId: int)
      requires Valid() && teamId in teams && heroId in heroes
      requires HeroTeamLink(teamId, heroId) !in links
      modifies this
      ensures Valid() && heroes == old(heroes) && teams == old(teams)
      ensures links == old(links) + {HeroTeamLink(teamId, heroId)}
    {
      links := links + {HeroTeamLink(teamId, heroId)};
    }

    /** `hero.teams = []`, once flushed: every link of that hero is deleted and
        no other link; no row of either table changes. */
    method ClearTeams(heroId: int)
      requires Valid() && heroId in heroes
      modifies this
      ensures Valid() && heroes == old(heroes) && teams == old(teams)
      ensures links == WithoutHero(old(links), heroId)
      ensures TeamsOfHero(links, heroId) == {}
    {
      links := WithoutHero(links, heroId);
      UnlinkedHeroHasNoTeams(links, heroId);
    }

    /** `s.exec(select(Hero).where(Hero.name == name)).one()`. */
    method FindHeroByName(name: string) returns (r: Result<int>)
      requires Valid()
      ensures r.Ok? <==> |HeroesNamed(heroes, name)| == 1
      ensures r.Ok? ==> HeroesNamed(heroes, name) == {r.value} && r.value in heroes
      ensures r.Err? ==> r.error == ServerError
    {
      r := Sql.One(HeroesNamed(heroes, name));
    }

    /** `s.exec(select(Team).where(Team.name == name)).one()`. */
    method FindTeamByName(name: string) returns (r: Result<int>)
      requires Valid()
      ensures r.Ok? <==> |TeamsNamed(teams, name)| == 1
      ensures r.Ok? ==> TeamsNamed(teams, name) == {r.value} && r.value in teams
      ensures r.Err? ==> r.error == ServerError
    {
      r := Sql.One(TeamsNamed(teams, name));
    }

    /** `create_heroes_with_teams`: the teams Fatherland (El Presidente, Prime
        Minister, Caesar) and Zerg (Z1, Caesar), committed together. Caesar is
        one object in both lists, so one row with two links. Every new hero
        and team gets a fresh id; the link rows are exactly the five
        memberships. */
    method CreateHeroesWithTeams() returns (caesar: int, presidente: int, primeMinister: int, z1: int, fatherland: int, zerg: int)
      requires Valid()
      modifies this
      ensures Valid()
      ensures caesar !in old(heroes) && presidente !in old(heroes) && primeMinister !in old(heroes) && z1 !in old(heroes)
      ensures Distinct(presidente, primeMinister, caesar, z1)
      ensures fatherland !in old(teams) && zerg !in old(teams) && fatherland != zerg
      ensures heroes == old(heroes)[presidente := Hero(Some(presidente), "El Presidente", "VVP", None)]
                                   [primeMinister := Hero(Some(primeMinister), "Prime Minister", "KGB", None)]
                                   [caesar := Hero(Some(caesar), "Caesar", "", None)]
                                   [z1 := Hero(Some(z1), "Z1", "Shorty", None)]
      ensures teams == old(teams)[fatherland := Team(Some(fatherland), "Fatherland", "Earth")]
                                 [zerg := Team(Some(zerg), "Zerg", "HQ")]
      ensures links == old(links) + Memberships(fatherland, zerg, presidente, primeMinister, caesar, z1)
      ensures TeamsOfHero(links, caesar) == {fatherland, zerg}
      ensures TeamsOfHero(links, presidente) == {fatherland} && TeamsOfHero(links, primeMinister) == {fatherland}
      ensures TeamsOfHero(links, z1) == {zerg}
      ensures HeroesOfTeam(links, fatherland) == {presidente, primeMinister, caesar}
      ensures HeroesOfTeam(links, zerg) == {z1, caesar}
    {
      caesar, presidente, primeMinister, z1, fatherland, zerg := InsertFoundingRows();
      assert forall l | l in old(links) :: l.heroId in old(heroes) && l.teamId in old(teams);
      LinkFoundingRows(fatherland, zerg, presidente, primeMinister, caesar, z1);
      MembershipViews(old(links), fatherland, zerg, presidente, primeMinister, caesar, z1);
    }

    /** The rows of `create_heroes_with_teams`: two teams and four heroes,
        each under a fresh id. */
    method InsertFoundingRows() returns (caesar: int, presidente: int, primeMinister: int, z1: int, fatherland: int, zerg: int)
      requires Valid()
      modifies this
      ensures Valid() && links == old(links)
      ensures caesar !in old(heroes) && presidente !in old(heroes) && primeMinister !in old(heroes) && z1 !in old(heroes)
      ensures Distinct(presidente, primeMinister, caesar, z1)
      ensures fatherland !in old(teams) && zerg !in old(teams) && fatherland != zerg
      ensures heroes == old(heroes)[presidente := Hero(Some(presidente), "El Presidente", "VVP", None)]
                                   [primeMinister := Hero(Some(primeMinister), "Prime Minister", "KGB", None)]
                                   [caesar := Hero(Some(caesar), "Caesar", "", None)]
                                   [z1 := Hero(Some(z1), "Z1", "Shorty", None)]
      ensures teams == old(teams)[fatherland := Team(Some(fatherland), "Fatherland", "Earth")]
                                 [zerg := Team(Some(zerg), "Zerg", "HQ")]
    {
      fatherland := InsertTeam("Fatherland", "Earth");
      presidente := InsertHero("El Presidente", "VVP", None);
      primeMinister := InsertHero("Prime Minister", "KGB", None);
      caesar := InsertHero("Caesar", "", None);
      zerg := InsertTeam("Zerg", "HQ");
      z1 := InsertHero("Z1", "Shorty", None);
    }

    /** The link rows of `create_heroes_with_teams`, flushed after the rows
        they refer to. */
    method LinkFoundingRows(fatherland: int, zerg: int, presidente: int, primeMinister: int, caesar: int, z1: int)
      requires Valid() && fatherland in teams && zerg in teams
      requires presidente in heroes && primeMinister in heroes && caesar in heroes && z1 in heroes
      requires Memberships(fatherland, zerg, presidente, primeMinister, caesar, z1) !! links
      modifies this
      ensures Valid() && heroes == old(heroes) && teams == old(teams)
      ensures links == old(links) + Memberships(fatherland, zerg, presidente, primeMinister, caesar, z1)
    {
      links := links + Memberships(fatherland, zerg, presidente, primeMinister, caesar, z1);
    }

    /** `update_heroes`: load Z1 and Fatherland (each must be the only row with
        its name, or `.one()` raises and nothing changes), clear Z1's teams,
        append Z1 to Fatherland and commit. Afterwards Z1's teams are exactly
        Fatherland; every other hero keeps its links; no row changes. */
    method UpdateHeroes() returns (r: Result<()>, ghost z1: int, ghost fatherland: int)
      requires Valid()
      modifies this
      ensures Valid() && heroes == old(heroes) && teams == old(teams)
      ensures r.Ok? <==> |HeroesNamed(heroes, "Z1")| == 1 && |TeamsNamed(teams, "Fatherland")| == 1
      ensures r.Err? ==> r.error == ServerError && links == old(links)
      ensures r.Ok? ==> HeroesNamed(heroes, "Z1") == {z1} && TeamsNamed(teams, "Fatherland") == {fatherland}
      ensures r.Ok? ==> links == WithoutHero(old(links), z1) + {HeroTeamLink(fatherland, z1)}
      ensures r.Ok? ==> TeamsOfHero(links, z1) == {fatherland}
      ensures r.Ok? ==> forall h :: h != z1 ==> TeamsOfHero(links, h) == TeamsOfHero(old(links), h)
    {
      z1, fatherland := 0, 0;
      var hero := FindHeroByName("Z1");
      if hero.Err? {
        return Err(hero.error), z1, fatherland;
      }
      var team := FindTeamByName("Fatherland");
      if team.Err? {
        return Err(team.error), z1, fatherland;
      }
      var h, t := hero.value, team.value;
      z1, fatherland := h, t;
      ClearTeams(h);
      Link(t, h);
      r := Ok(());
      assert TeamsOfHero(links, z1) == {fatherland} by {
        forall t ensures t in TeamsOfHero(links, z1) <==> t == fatherland {
          assert HeroTeamLink(t, z1) in links <==> t == fatherland;
        }
      }
      forall h | h != z1 ensures TeamsOfHero(links, h) == TeamsOfHero(old(links), h) {
        forall t ensures t in TeamsOfHero(links, h) <==> t in TeamsOfHero(old(links), h) {
          assert HeroTeamLink(t, h) in links <==> HeroTeamLink(t, h) in old(links);
        }
      }
    }
  }

  /** Four pairwise different ids. */
  predicate Distinct(a: int, b: int, c: int, d: int)
  {
    a != b && a != c && a != d && b != c && b != d && c != d
  }

  /** The five link rows `create_heroes_with_teams` commits. */
  function Memberships(fatherland: int, zerg: int, presidente: int, primeMinister: int, caesar: int, z1: int): set<HeroTeamLink>
  {
    {HeroTeamLink(fatherland, presidente), HeroTeamLink(fatherland, primeMinister), HeroTeamLink(fatherland, caesar),
     HeroTeamLink(zerg, z1), HeroTeamLink(zerg, caesar)}
  }

  /** Committing the five memberships next to links that name none of the new
      rows: Caesar is in both teams, every other new hero in exactly its own. */
  lemma MembershipViews(links: set<HeroTeamLink>, fatherland: int, zerg: int, presidente: int, primeMinister: int, caesar: int, z1: int)
    requires fatherland != zerg && Distinct(presidente, primeMinister, caesar, z1)
    requires forall l | l in links :: l.teamId != fatherland && l.teamId != zerg
    requires forall l | l in links :: l.heroId != presidente && l.heroId != primeMinister && l.heroId != caesar && l.heroId != z1
    ensures var all := links + Memberships(fatherland, zerg, presidente, primeMinister, caesar, z1);
      && TeamsOfHero(all, caesar) == {fatherland, zerg}
      && TeamsOfHero(all, presidente) == {fatherland} && TeamsOfHero(all, primeMinister) == {fatherland}
      && TeamsOfHero(all, z1) == {zerg}
      && HeroesOfTeam(all, fatherland) == {presidente, primeMinister, caesar}
      && HeroesOfTeam(all, zerg) == {z1, caesar}
  {
    var added := Memberships(fatherland, zerg, presidente, primeMinister, caesar, z1);
    NewHeroTeams(links, added, caesar, {fatherland, zerg});
    NewHeroTeams(links, added, presidente, {fatherland});
    NewHeroTeams(links, added, primeMinister, {fatherland});
    NewHeroTeams(links, added, z1, {zerg});
    NewTeamHeroes(links, added, fatherland, {presidente, primeMinister, caesar});
    NewTeamHeroes(links, added, zerg, {z1, caesar});
  }

  /** The teams of a hero no old link names, once `added` is committed. */
  lemma NewHeroTeams(before: set<HeroTeamLink>, added: set<HeroTeamLink>, heroId: int, expected: set<int>)
    requires forall l | l in before :: l.heroId != heroId
    requires forall t :: HeroTeamLink(t, heroId) in added <==> t in expected
    ensures TeamsOfHero(before + added, heroId) == expected
  {
    forall t ensures t in TeamsOfHero(before + added, heroId) <==> t in expected {
      assert HeroTeamLink(t, heroId) !in before;
    }
  }

  /** The heroes of a team no old link names, once `added` is committed. */
  lemma NewTeamHeroes(before: set<HeroTeamLink>, added: set<HeroTeamLink>, teamId: int, expected: set<int>)
    requires forall l | l in before :: l.teamId != teamId
    requires forall h :: HeroTeamLink(teamId, h) in added <==> h in expected
    ensures HeroesOfTeam(before + added, teamId) == expected
  {
    forall h ensures h in HeroesOfTeam(before + added, teamId) <==> h in expected {
      assert HeroTeamLink(teamId, h) !in before;
    }
  }

  /** The script's `main` on an empty database: after both functions, Z1
      belongs to Fatherland only and Caesar still to both teams. */
  method Script() returns (z1Teams: set<int>, caesarTeams: set<int>, fatherland: int, zerg: int)
    ensures fatherland != zerg
    ensures z1Teams == {fatherland} && caesarTeams == {fatherland, zerg}
  {
    var db := new Database();
    var caesar, presidente, primeMinister, z1;
    caesar, presidente, primeMinister, z1, fatherland, zerg := db.CreateHeroesWithTeams();
    assert HeroesNamed(db.heroes, "Z1") == {z1};
    assert TeamsNamed(db.teams, "Fatherland") == {fatherland};
    var r, foundZ1, foundFatherland := db.UpdateHeroes();
    z1Teams := TeamsOfHero(db.links, z1);
    caesarTeams := TeamsOfHero(db.links, caesar);
  }
}
