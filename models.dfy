/** The schema projections of fastapi_tutorial/simple_api/models/heroes.py and
    teams.py: one canonical row per entity kind and the views derived from it
    for creating, reading, reading with relations, and partial updates.

    Both files live in one module because their read-with-relations views
    refer to each other (a hero view nests a `TeamRead`, a team view a list of
    `HeroRead`).

    Pydantic inheritance is written as composition: every view of a hero holds
    the one `HeroBase` record, so the field list is declared once and the views
    can only differ by the identity and the relation they add. */
module Models {
  import opened Wrappers

  // ---------------------------------------------------------------- heroes

  /** `HeroBase`: `name` and `secret_name` are required strings; `age` and
      `team_id` are nullable and default to `None`. */
  datatype HeroBase = HeroBase(name: string, age: Option<int>, secretName: string, teamId: Option<int>)

  /** The `hero` table row: the base fields and a primary key that stays `None`
      until the row is inserted. Its `team` relationship is not a column: it is
      looked up through `team_id` (HeroApi.TeamOfHero). */
  datatype Hero = Hero(id: Option<int>, base: HeroBase)

  /** `HeroCreate` adds nothing to `HeroBase`: no id can be sent. */
  type HeroCreate = HeroBase

  /** `HeroRead`: the base fields plus a required integer id. */
  datatype HeroRead = HeroRead(id: int, base: HeroBase)

  /** `HeroReadWithTeam`: `HeroRead` plus an optional `TeamRead`, which carries
      no heroes of its own, so the nesting stops after one level. */
  datatype HeroReadWithTeam = HeroReadWithTeam(id: int, base: HeroBase, team: Option<TeamRead>)

  /** The four hero keys of a JSON request body, each unset, null or a value. */
  datatype HeroBody = HeroBody(name: Field<string>, age: Field<int>, secretName: Field<string>, teamId: Field<int>)

  /** `HeroUpdate` declares all four fields optional and nullable, so it accepts
      every hero body; read with `exclude_unset=True`, the body it was validated
      from is exactly what it carries. */
  type HeroUpdate = HeroBody

  /** Validation of a create body against `HeroCreate`: a missing or null
      `name` or `secret_name` is a 422; an unset `age` or `team_id` becomes
      `None`. */
  function ParseHeroCreate(body: HeroBody): (r: Result<HeroCreate>)
    ensures r.Ok? <==> body.name.Value? && body.secretName.Value?
    ensures r.Err? ==> r.error == Invalid
    ensures r.Ok? ==> r.value.name == body.name.value && r.value.secretName == body.secretName.value
    ensures r.Ok? ==> r.value.age == body.age.Nullable() && r.value.teamId == body.teamId.Nullable()
  {
    if body.name.Value? && body.secretName.Value? then
      Ok(HeroBase(body.name.value, body.age.Nullable(), body.secretName.value, body.teamId.Nullable()))
    else
      Err(Invalid)
  }

  function NullableField<T>(x: Option<T>): Field<T> {
    if x.Some? then Value(x.value) else Null
  }

  /** The JSON a client sends to create the hero `c`: every key, `null` for an
      absent age or team. */
  function HeroCreateBody(c: HeroCreate): HeroBody {
    HeroBody(Value(c.name), NullableField(c.age), Value(c.secretName), NullableField(c.teamId))
  }

  /** Creating through JSON loses nothing: validation gives back the record sent. */
  lemma ParseHeroCreateBody(c: HeroCreate)
    ensures ParseHeroCreate(HeroCreateBody(c)) == Ok(c)
  {
  }

  /** A body without `age` creates a hero whose age is `None`. */
  lemma CreateWithoutAge(name: string, secretName: string)
    ensures ParseHeroCreate(HeroBody(Value(name), Unset, Value(secretName), Unset))
         == Ok(HeroBase(name, None, secretName, None))
  {
  }

  /** The read view of a stored row (after `session.refresh`, the id is set). */
  function ToHeroRead(h: Hero): HeroRead
    requires h.id.Some?
  {
    HeroRead(h.id.value, h.base)
  }

  /** The row that a read view shows. */
  function HeroOfRead(r: HeroRead): Hero {
    Hero(Some(r.id), r.base)
  }

  /** Projecting a stored hero to `HeroRead` is lossless, and every read view is
      the projection of exactly one stored row. */
  lemma HeroReadLossless(h: Hero, r: HeroRead)
    ensures h.id.Some? ==> HeroOfRead(ToHeroRead(h)) == h
    ensures ToHeroRead(HeroOfRead(r)) == r
  {
  }

  /** `HeroReadWithTeam` built from a hero's read view and its team. */
  function WithTeam(r: HeroRead, team: Option<TeamRead>): HeroReadWithTeam {
    HeroReadWithTeam(r.id, r.base, team)
  }

  /** Dropping the nested team of a `HeroReadWithTeam` gives back the `HeroRead`. */
  function HeroReadOfWithTeam(w: HeroReadWithTeam): (r: HeroRead)
    ensures r.id == w.id && r.base == w.base
    ensures WithTeam(r, w.team) == w
  {
    HeroRead(w.id, w.base)
  }

  /** A patch the `hero` table can store: its `name` and `secret_name` columns
      are NOT NULL, so a patch that sets either to null fails at commit. */
  predicate StorableHeroUpdate(u: HeroUpdate) {
    !u.name.Null? && !u.secretName.Null?
  }

  /** One `(key, value)` item of `hero_update.dict(exclude_unset=True)`. */
  datatype HeroAttr =
    | NameAttr(name: string)
    | AgeAttr(age: Option<int>)
    | SecretNameAttr(secretName: string)
    | TeamIdAttr(teamId: Option<int>)

  /** `setattr(hero, key, value)` for one item. */
  function SetAttr(h: Hero, a: HeroAttr): Hero {
    match a
    case NameAttr(v) => h.(base := h.base.(name := v))
    case AgeAttr(v) => h.(base := h.base.(age := v))
    case SecretNameAttr(v) => h.(base := h.base.(secretName := v))
    case TeamIdAttr(v) => h.(base := h.base.(teamId := v))
  }

  function FieldItem<T>(f: Field<T>, attr: Option<T> -> HeroAttr): seq<HeroAttr> {
    if f.Unset? then [] else [attr(f.Nullable())]
  }

  /** The position of an item's key in the declaration order of `HeroUpdate`. */
  function AttrRank(a: HeroAttr): nat {
    match a
    case NameAttr(_) => 0
    case AgeAttr(_) => 1
    case SecretNameAttr(_) => 2
    case TeamIdAttr(_) => 3
  }

  /** `hero_update.dict(exclude_unset=True).items()`: one item per key that was
      sent, in declaration order (`HeroUpdateItemsSent`). */
  function HeroUpdateItems(u: HeroUpdate): (items: seq<HeroAttr>)
    requires StorableHeroUpdate(u)
    ensures forall i, j | 0 <= i < j < |items| :: AttrRank(items[i]) < AttrRank(items[j])
  {
    (if u.name.Value? then [NameAttr(u.name.value)] else [])
    + FieldItem(u.age, v => AgeAttr(v))
    + (if u.secretName.Value? then [SecretNameAttr(u.secretName.value)] else [])
    + FieldItem(u.teamId, v => TeamIdAttr(v))
  }

  /** The items name exactly the sent keys, each with the sent value (None for
      an explicit null); an unsent key has no item. */
  lemma HeroUpdateItemsSent(u: HeroUpdate)
    requires StorableHeroUpdate(u)
    ensures forall v :: NameAttr(v) in HeroUpdateItems(u) <==> u.name == Value(v)
    ensures forall v :: AgeAttr(v) in HeroUpdateItems(u) <==> !u.age.Unset? && v == u.age.Nullable()
    ensures forall v :: SecretNameAttr(v) in HeroUpdateItems(u) <==> u.secretName == Value(v)
    ensures forall v :: TeamIdAttr(v) in HeroUpdateItems(u) <==> !u.teamId.Unset? && v == u.teamId.Nullable()
  {
  }

  /** The record after `setattr` for each item in turn. */
  function SetAll(h: Hero, items: seq<HeroAttr>): Hero
    decreases |items|
  {
    if items == [] then h else SetAttr(SetAll(h, items[..|items| - 1]), items[|items| - 1])
  }

  /** Setting the items of `a + b` is setting those of `a`, then those of `b`. */
  lemma {:induction false} SetAllAppend(h: Hero, a: seq<HeroAttr>, b: seq<HeroAttr>)
    ensures SetAll(h, a + b) == SetAll(SetAll(h, a), b)
    decreases |b|
  {
    if b == [] {
      assert a + b == a;
    } else {
      var n := |b| - 1;
      assert (a + b)[..|a + b| - 1] == a + b[..n];
      SetAllAppend(h, a, b[..n]);
    }
  }

  /** The hero that `update_hero` stores: the fold of `setattr` over the sent items. */
  function PatchHero(h: Hero, u: HeroUpdate): Hero
    requires StorableHeroUpdate(u)
  {
    SetAll(h, HeroUpdateItems(u))
  }

  /** What a patch does to each field: a sent key overwrites its field, with
      `None` for an explicit null; an unsent key leaves its field alone; the id
      is never touched. */
  lemma {:induction false} PatchHeroFields(h: Hero, u: HeroUpdate)
    requires StorableHeroUpdate(u)
    ensures PatchHero(h, u).id == h.id
    ensures PatchHero(h, u).base.name == if u.name.Value? then u.name.value else h.base.name
    ensures PatchHero(h, u).base.age == if u.age.Unset? then h.base.age else u.age.Nullable()
    ensures PatchHero(h, u).base.secretName == if u.secretName.Value? then u.secretName.value else h.base.secretName
    ensures PatchHero(h, u).base.teamId == if u.teamId.Unset? then h.base.teamId else u.teamId.Nullable()
  {
    var n: seq<HeroAttr> := if u.name.Value? then [NameAttr(u.name.value)] else [];
    var a := FieldItem(u.age, v => AgeAttr(v));
    var s: seq<HeroAttr> := if u.secretName.Value? then [SecretNameAttr(u.secretName.value)] else [];
    var t := FieldItem(u.teamId, v => TeamIdAttr(v));
    assert HeroUpdateItems(u) == n + a + s + t;
    SetAllAppend(h, n + a + s, t);
    SetAllAppend(h, n + a, s);
    SetAllAppend(h, n, a);
    var h1 := SetAll(h, n);
    var h2 := SetAll(h1, a);
    var h3 := SetAll(h2, s);
    assert n != [] ==> n[..0] == [];
    assert a != [] ==> a[..0] == [];
    assert s != [] ==> s[..0] == [];
    assert t != [] ==> t[..0] == [];
  }

  /** The patch that sends no key. */
  const EmptyHeroUpdate: HeroUpdate := HeroBody(Unset, Unset, Unset, Unset)

  /** An empty patch changes nothing. */
  lemma PatchHeroEmpty(h: Hero)
    ensures PatchHero(h, EmptyHeroUpdate) == h
  {
    assert HeroUpdateItems(EmptyHeroUpdate) == [];
  }

  /** An explicit `age: null` clears the age and keeps the names and the team. */
  lemma PatchHeroNullAge(h: Hero)
    ensures PatchHero(h, HeroBody(Unset, Null, Unset, Unset)) == h.(base := h.base.(age := None))
  {
    PatchHeroFields(h, HeroBody(Unset, Null, Unset, Unset));
  }

  /** Sending the same patch twice stores what sending it once stores. */
  lemma PatchHeroIdempotent(h: Hero, u: HeroUpdate)
    requires StorableHeroUpdate(u)
    ensures PatchHero(PatchHero(h, u), u) == PatchHero(h, u)
  {
    PatchHeroFields(h, u);
    PatchHeroFields(PatchHero(h, u), u);
  }

  // ---------------------------------------------------------------- teams

  /** `TeamBase`: `name` and `headquarters`, both required strings. */
  datatype TeamBase = TeamBase(name: string, headquarters: string)

  /** The `team` table row: the base fields and a primary key that stays `None`
      until the row is inserted. Its `heroes` relationship is not a column: it is
      the heroes whose `team_id` is this id (HeroApi.HeroesOfTeam). */
  datatype Team = Team(id: Option<int>, base: TeamBase)

  /** `TeamCreate` adds nothing to `TeamBase`: no id can be sent. */
  type TeamCreate = TeamBase

  /** `TeamRead`: the base fields plus a required integer id. */
  datatype TeamRead = TeamRead(id: int, base: TeamBase)

  /** `TeamReadWithHeroes`: `TeamRead` plus a list of `HeroRead`, which carry
      no team of their own, so the nesting stops after one level. */
  datatype TeamReadWithHeroes = TeamReadWithHeroes(id: int, base: TeamBase, heroes: seq<HeroRead>)

  /** The two team keys of a JSON request body, each unset, null or a value. */
  datatype TeamBody = TeamBody(name: Field<string>, headquarters: Field<string>)

  /** `TeamUpdate` declares both fields optional and nullable, so it accepts every
      team body. */
  type TeamUpdate = TeamBody

  /** Validation of a create body against `TeamCreate`: both keys are required
      and may not be null. */
  function ParseTeamCreate(body: TeamBody): (r: Result<TeamCreate>)
    ensures r.Ok? <==> body.name.Value? && body.headquarters.Value?
    ensures r.Err? ==> r.error == Invalid
    ensures r.Ok? ==> r.value.name == body.name.value && r.value.headquarters == body.headquarters.value
  {
    if body.name.Value? && body.headquarters.Value? then
      Ok(TeamBase(body.name.value, body.headquarters.value))
    else
      Err(Invalid)
  }

  /** The JSON a client sends to create the team `c`. */
  function TeamCreateBody(c: TeamCreate): TeamBody {
    TeamBody(Value(c.name), Value(c.headquarters))
  }

  /** Creating through JSON loses nothing. */
  lemma ParseTeamCreateBody(c: TeamCreate)
    ensures ParseTeamCreate(TeamCreateBody(c)) == Ok(c)
  {
  }

  function ToTeamRead(t: Team): TeamRead
    requires t.id.Some?
  {
    TeamRead(t.id.value, t.base)
  }

  function TeamOfRead(r: TeamRead): Team {
    Team(Some(r.id), r.base)
  }

  /** Projecting a stored team to `TeamRead` is lossless, and back. */
  lemma TeamReadLossless(t: Team, r: TeamRead)
    ensures t.id.Some? ==> TeamOfRead(ToTeamRead(t)) == t
    ensures ToTeamRead(TeamOfRead(r)) == r
  {
  }

  /** `TeamReadWithHeroes` built from a team's read view and its heroes. */
  function WithHeroes(r: TeamRead, heroes: seq<HeroRead>): TeamReadWithHeroes {
    TeamReadWithHeroes(r.id, r.base, heroes)
  }

  /** Dropping the hero list of a `TeamReadWithHeroes` gives back the `TeamRead`. */
  function TeamReadOfWithHeroes(w: TeamReadWithHeroes): (r: TeamRead)
    ensures r.id == w.id && r.base == w.base
    ensures WithHeroes(r, w.heroes) == w
  {
    TeamRead(w.id, w.base)
  }

  /** The keys of `team.dict(exclude_unset=True)`, in declaration order. Iterating
      the dict itself (not its `.items()`) yields these strings. */
  function TeamUpdateKeys(u: TeamUpdate): (keys: seq<string>)
    ensures keys == [] <==> u.name.Unset? && u.headquarters.Unset?
    ensures forall i | 0 <= i < |keys| :: |keys[i]| != 2
  {
    (if u.name.Unset? then [] else ["name"])
    + (if u.headquarters.Unset? then [] else ["headquarters"])
  }

  /** A team patch the `team` table can store: both columns are NOT NULL. */
  predicate StorableTeamUpdate(u: TeamUpdate) {
    !u.name.Null? && !u.headquarters.Null?
  }

  /** The team a working `update_team` would store: each sent key overwrites
      its field, each unsent key leaves it. */
  function PatchTeam(t: Team, u: TeamUpdate): (p: Team)
    requires StorableTeamUpdate(u)
  {
    Team(t.id, TeamBase(
      if u.name.Value? then u.name.value else t.base.name,
      if u.headquarters.Value? then u.headquarters.value else t.base.headquarters))
  }

  /** An empty team patch changes nothing, and a team patch is idempotent. */
  lemma PatchTeamEmptyAndIdempotent(t: Team, u: TeamUpdate)
    requires StorableTeamUpdate(u)
    ensures PatchTeam(t, TeamBody(Unset, Unset)) == t
    ensures PatchTeam(PatchTeam(t, u), u) == PatchTeam(t, u)
    ensures PatchTeam(t, u).id == t.id
  {
  }
}
