# fastapi-tutorial: a verified model of the Hero/Team store

This Dafny project models the behaviour of the FastAPI/SQLModel tutorial application `fastapi_tutorial`, and proves properties of that model.

## What is modelled

- **The Hero/Team CRUD API** (`simple_api/main.py`), in `hero_api.dfy`:
  - Two tables, `hero` and `team`, are the `map<int, Hero>` and `map<int, Team>` fields of the class `HeroApi.Store`.
  - Each handler is one method of `Store`, a single atomic step.
  - A rejection is an `Error` variant rather than an HTTP status: `NotFound` for a 404, `Invalid` for a 422, `ServerError` for an uncaught exception.
  - The loop of `update_hero`, which calls `setattr` for each sent field, is a `for` loop proved against a fold over the sent items.
- **The pydantic/SQLModel schema classes** (`simple_api/models/heroes.py`, `teams.py`), in `models.dfy`:
  - Each class is a datatype: base, table, create, read, read-with-relations and update.
  - A JSON body is a record of `Field<T> = Unset | Null | Value(v)`. This keeps a key that was not sent apart from an explicit `null`, which is what `dict(exclude_unset=True)` observes.
- **What SQLite and SQLAlchemy contribute** (`sql.dfy`):
  - A bound integer parameter must fit SQLite's signed 64-bit INTEGER. The Python driver raises `OverflowError` for any other int, so the statement does not run at all.
  - A query without ORDER BY is taken to return rows in ascending rowid order. This is an assumption: see "Listing order" below.
  - An inserted row gets rowid max+1, or 1 in an empty table.
  - In `LIMIT`/`OFFSET`, SQLite reads a negative LIMIT as "no limit".
  - `.one()` succeeds only when exactly one row matches.
- **The many-to-many variant** (`sqlmodel_many_to_many.py`), in `many_to_many.dfy`:
  - The `HeroTeamLink` link table is a `set<HeroTeamLink>`. Its composite primary key means that no pair occurs twice.
  - `Hero.teams` and `Team.heroes` are two view functions of that set.
  - `create_heroes_with_teams` and `update_heroes` are methods of the class `ManyToMany.Database`.
- **The single-table snapshot** (`simple_api.py`), in `simple_api.dfy`: the class `SimpleApi.HeroTable`, with create and list-all.
- **The item endpoints** (`main.py`), in `items.dfy`:
  - the ten-item fake database;
  - `get_item`, which applies Python slice semantics, negative bounds included;
  - `read_item` and `read_user_item`, which build an insertion-ordered dict with `dict.update`.

## Decisions where the code decides

- **Listing order (an assumption).** Hero and team listings, and `Team.heroes`, are modelled as coming back in ascending id order. The queries have no ORDER BY, so SQL leaves their order undefined. Ascending rowid is the order SQLite's full scan of a rowid table produces in practice, but SQLite does not guarantee it. Every ordering claim of `Sql.KeyOrder`, `HeroApi.AllHeroes`, `HeroApi.AllTeams`, `HeroApi.HeroesOfTeam` and `SimpleApi.Listing` rests on this assumption, and so does every member built on them.
- **Negative `offset`.** `offset: int = 0` has no lower bound, and SQLite reads a negative OFFSET as 0, so `offset=-3` returns the first page. `Sql.OffsetLimit` models this.
- **Integers outside 64 bits.** Pydantic accepts any Python int, but SQLite stores signed 64-bit integers. A path id, `offset`, `limit`, `age`, `team_id`, or an `id` sent to `simple_api.py` outside that range makes the driver raise `OverflowError` when the statement binds it. That raise is a 500, modelled as `ServerError`, and nothing is stored. A `limit` above 100 is refused as a 422 before any statement runs. `Sql.Bindable` is the range test.
- **Dangling `team_id`.** `create_hero` does no team lookup, and SQLite does not enforce foreign keys by default. A `team_id` that names no team is therefore stored, and `HeroReadWithTeam.team` is then `None`.
- **A null `name` or `secret_name` in a hero patch.** `update_hero` assigns an explicit null, but the NOT NULL column then makes the commit fail. The model checks for this before assigning. The outcome is the same: `ServerError`, and nothing changes.
- **`update_team` as written** (line 109) iterates the dict, not its `.items()`.
  - Each key is a string, so unpacking it into `key, value` raises unless the string has two characters. Neither `name` nor `headquarters` has two.
  - Every non-empty team patch therefore fails before any `setattr`, and only the empty patch succeeds.
  - `HeroApi.Store.UpdateTeam` models this literally. `HeroApi.Store.UpdateTeamIntended` is the evidently intended handler.
- **`read_teams` defaults `limit` to 0.** A listing without `limit` is therefore empty. This is modelled as written and listed under Findings.
- **Ids in `simple_api.py`.** `Hero` is used both as the request body and as the table, so a client may send an `id`. A sent id is inserted as is. An id already stored violates the primary key, so `ServerError` is returned and nothing is stored.
- **Fresh ids everywhere else.** Ids follow SQLite's rowid rule, `NextRowId`. Contracts state only that an id is fresh and that it is that rowid. Nothing claims that ids are never reused after a delete.

## Model

| member | source | states |
|---|---|---|
| Models.ParseHeroCreate | fastapi_tutorial/simple_api/models/heroes.py:9-13 | a create body validates iff `name` and `secret_name` are sent non-null; otherwise Invalid; an unset or null `age`/`team_id` becomes None, and sent values are kept |
| Models.ParseHeroCreateBody | fastapi_tutorial/simple_api/models/heroes.py:22-23 | every `HeroCreate` survives the trip to a JSON body and back through validation |
| Models.CreateWithoutAge | fastapi_tutorial/simple_api/test_main.py:31-41 | a body with only name and secret name validates to `age = None`, `team_id = None` |
| Models.HeroReadLossless | fastapi_tutorial/simple_api/models/heroes.py:16-27 | projecting a stored hero (id set) to `HeroRead` and back gives the hero; every `HeroRead` is the projection of its row |
| Models.HeroReadOfWithTeam | fastapi_tutorial/simple_api/models/heroes.py:30-31 | `HeroReadWithTeam` is exactly `HeroRead` plus the optional team: dropping the team and adding it back is the identity |
| Models.SetAllAppend | fastapi_tutorial/simple_api/main.py:56-57 | applying the `setattr`s of `a + b` is applying those of `a`, then those of `b` |
| Models.HeroUpdateItems | fastapi_tutorial/simple_api/main.py:55-56 | the dumped patch's items come in declaration order (name, age, secret name, team id), so no key occurs twice |
| Models.HeroUpdateItemsSent | fastapi_tutorial/simple_api/main.py:55-56 | `exclude_unset=True`: there is an item for a key iff that key was sent, and it carries the sent value, None for an explicit null |
| Models.PatchHeroFields | fastapi_tutorial/simple_api/main.py:55-57 | per field: a sent key overwrites the field (None for an explicit null), an unsent key leaves it; the id never changes |
| Models.PatchHeroEmpty | fastapi_tutorial/simple_api/main.py:55-57 | the patch that sends no key is the identity |
| Models.PatchHeroNullAge | fastapi_tutorial/simple_api/models/heroes.py:34-38 | an explicit `age: null` clears the age and keeps every other field |
| Models.PatchHeroIdempotent | fastapi_tutorial/simple_api/main.py:55-57 | applying the same hero patch twice equals applying it once |
| Models.ParseTeamCreate | fastapi_tutorial/simple_api/models/teams.py:9-11 | a team body validates iff both `name` and `headquarters` are sent non-null, keeping their values; otherwise Invalid |
| Models.ParseTeamCreateBody | fastapi_tutorial/simple_api/models/teams.py:28-29 | every `TeamCreate` survives the trip to a JSON body and back |
| Models.TeamReadLossless | fastapi_tutorial/simple_api/models/teams.py:14-21 | projecting a stored team to `TeamRead` and back gives the team, and conversely |
| Models.TeamReadOfWithHeroes | fastapi_tutorial/simple_api/models/teams.py:24-25 | `TeamReadWithHeroes` is exactly `TeamRead` plus its hero list |
| Models.TeamUpdateKeys | fastapi_tutorial/simple_api/main.py:109 | the keys of the dumped team patch are empty iff nothing was sent, and none has two characters |
| Models.PatchTeamEmptyAndIdempotent | fastapi_tutorial/simple_api/models/teams.py:32-34 | the intended team patch keeps the id, is the identity when empty, and is idempotent |
| Sql.KeyOrder | fastapi_tutorial/simple_api/main.py:38 | the scan order of a table: strictly ascending, holding exactly the stored keys, each once |
| Sql.NextRowId | fastapi_tutorial/simple_api/main.py:28-30 | the assigned rowid is held by no row and exceeds every key; it is 1 for an empty table and otherwise immediately follows the largest key |
| Sql.OffsetLimit | fastapi_tutorial/simple_api/main.py:38 | the page is the rows from `offset` on, in order, a negative offset counting as 0; its exact length, where a negative limit means no limit; at most a non-negative `limit` rows |
| Sql.NegativeOffsetIsZero | fastapi_tutorial/simple_api/main.py:36-38 | `offset` has no lower bound, and a negative OFFSET returns the same page as OFFSET 0 |
| Sql.One | fastapi_tutorial/sqlmodel_many_to_many.py:66-67 | `.one()` succeeds iff exactly one row matches, and then returns that row; otherwise it raises |
| HeroApi.AllHeroes | fastapi_tutorial/simple_api/main.py:38 | `select(Hero)` lists each stored hero exactly once, as its read view, in ascending id order |
| HeroApi.AllTeams | fastapi_tutorial/simple_api/main.py:93 | `select(Team)` lists each stored team exactly once, as its read view, in ascending id order |
| HeroApi.TeamOfHero | fastapi_tutorial/simple_api/models/heroes.py:13-19 | `Hero.team` is the team whose id is the hero's `team_id`, or None when `team_id` is None or names no team |
| HeroApi.OnTeam | fastapi_tutorial/simple_api/models/teams.py:17 | keeps exactly the rows with that `team_id`, never more rows than it was given, and id-ascending input stays id-ascending; order and multiplicity for every input are `OnTeamAppend`, `OnTeamKeepsAll` and `OnTeamCounts` |
| HeroApi.OnTeamAppend | fastapi_tutorial/simple_api/models/teams.py:17 | the rows kept from `a + b` are those kept from `a`, followed by those kept from `b`, so the input order is preserved |
| HeroApi.OnTeamKeepsAll | fastapi_tutorial/simple_api/models/teams.py:17 | a single row is kept iff its `team_id` is the team's id |
| HeroApi.OnTeamCounts | fastapi_tutorial/simple_api/models/teams.py:17 | a row on the team occurs in the result exactly as often as in the input; any other row never occurs |
| HeroApi.HeroesOfTeam | fastapi_tutorial/simple_api/models/teams.py:17 | `Team.heroes` is exactly the stored heroes whose `team_id` is the team's id, in ascending id order |
| HeroApi.BackPopulates | fastapi_tutorial/simple_api/models/heroes.py:19 | a hero is in a team's `heroes` iff that team is the hero's `team` |
| HeroApi.LimitParam | fastapi_tutorial/simple_api/main.py:36 | reference definition of `Query(le=100)`, its ensures restating it: a sent limit above 100 is Invalid, any other sent value passes, an unsent one takes the default; its consequences are proved by `NegativeLimitEscapesBound` and `Store.ReadHeroes` |
| HeroApi.NegativeLimitEscapesBound | fastapi_tutorial/simple_api/main.py:34-38 | as written, `limit=-1` passes validation and returns every row, more than 100 of them |
| HeroApi.BoundedLimitParam | fastapi_tutorial/simple_api/main.py:36 | reference definition of the intended `Query(ge=0, le=100)`, its ensures restating it: a sent limit outside 0..100 is Invalid; its consequence is `BoundedPageAtMost100` |
| HeroApi.BoundedPageAtMost100 | fastapi_tutorial/simple_api/main.py:34-38 | with the intended bound, no listing returns more than 100 rows |
| HeroApi.TeamDefaultHidesTeams | fastapi_tutorial/simple_api/main.py:89-93 | as written, a team listing without `limit` is empty even though teams are stored |
| HeroApi.IntendedTeamDefault | fastapi_tutorial/simple_api/main.py:89-93 | with the intended default of 100, a team listing without `limit` returns min(n, 100) teams, all of them when n ≤ 100 |
| HeroApi.FirstPage | fastapi_tutorial/simple_api/main.py:38 | the first page of `limit` rows has min(n, limit) rows and is all of them when n ≤ limit |
| HeroApi.PatchHeroBindable | fastapi_tutorial/simple_api/main.py:55-61 | a patch whose integers fit 64 bits keeps a row that fits 64 bits fitting, so the store's invariant that every row binds is kept |
| HeroApi.PatchKeepsRows | fastapi_tutorial/simple_api/main.py:51-61 | patching one stored row with a patch that fits 64 bits keeps every row under its own key and every row fitting 64 bits |
| HeroApi.ApplyHeroUpdate | fastapi_tutorial/simple_api/main.py:55-57 | the `setattr` loop over the sent items yields exactly `PatchHero` (per-field semantics in `PatchHeroFields`) |
| HeroApi.Store.CreateHero | fastapi_tutorial/simple_api/main.py:25-31 | a valid body whose `age` and `team_id` fit 64 bits is stored under a fresh id (the next rowid), with base fields equal to the create view; the answer is the stored row; an invalid body is Invalid, one with an out-of-range integer is ServerError, and neither stores anything; teams unchanged; every stored row fits 64 bits |
| HeroApi.Store.ReadHeroes | fastapi_tutorial/simple_api/main.py:34-38 | Invalid iff a limit above 100 is sent; otherwise ServerError iff `offset` or `limit` falls outside 64 bits; otherwise the id-ordered slice of heroes from `offset` (a negative one counting as 0), at most `limit` (default 100) long |
| HeroApi.Store.ReadHero | fastapi_tutorial/simple_api/main.py:41-46 | ServerError for an id outside 64 bits; otherwise NotFound iff the id is absent; otherwise that hero's id and fields with its team nested |
| HeroApi.Store.UpdateHero | fastapi_tutorial/simple_api/main.py:49-63 | ServerError and no change for an id outside 64 bits; NotFound and no change for an absent id; ServerError and no change for a null name/secret name or a sent `age`/`team_id` outside 64 bits; otherwise only that hero changes, to `PatchHero` of it, and is answered |
| HeroApi.Store.DeleteHero | fastapi_tutorial/simple_api/main.py:66-74 | ServerError and no change for an id outside 64 bits; otherwise removes exactly that id and nothing else; NotFound and no change when absent |
| HeroApi.Store.CreateTeam | fastapi_tutorial/simple_api/main.py:80-86 | a valid body is stored under a fresh id with its fields and answered as its read view; an invalid one is Invalid and stores nothing; heroes unchanged |
| HeroApi.Store.ReadTeams | fastapi_tutorial/simple_api/main.py:89-93 | Invalid iff a limit above 100 is sent; otherwise ServerError iff `offset` or `limit` falls outside 64 bits; otherwise the id-ordered slice of teams from `offset` (a negative one counting as 0); no `limit` gives the empty list |
| HeroApi.Store.ReadTeam | fastapi_tutorial/simple_api/main.py:96-101 | ServerError for an id outside 64 bits; otherwise NotFound iff the id is absent; otherwise the team's id and fields with exactly its heroes |
| HeroApi.Store.UpdateTeam | fastapi_tutorial/simple_api/main.py:104-114 | as written: ServerError for an id outside 64 bits; NotFound for an absent id; the empty patch answers the team unchanged; every other patch is ServerError and the state is unchanged (no `modifies`) |
| HeroApi.Store.UpdateTeamIntended | fastapi_tutorial/simple_api/main.py:104-114 | intended: ServerError and no change for an id outside 64 bits; NotFound and no change for an absent id; ServerError for a null field; otherwise only that team changes, to `PatchTeam` of it |
| HeroApi.CreateHeroScenario | fastapi_tutorial/simple_api/test_main.py:31-41 | creating John/Jack succeeds with no age and no team |
| HeroApi.RejectedCreateScenario | fastapi_tutorial/simple_api/test_main.py:44-51 | a missing or null `secret_name` is Invalid and the table stays empty |
| HeroApi.ReadHeroesScenario | fastapi_tutorial/simple_api/test_main.py:54-65 | two heroes stored one after the other are listed by a parameterless request in that order, as they were answered on creation |
| HeroApi.StoreTwoHeroes | fastapi_tutorial/simple_api/test_main.py:54-59 | two creates on empty tables are answered with ids 1 and 2, in order, and stored as answered |
| HeroApi.FirstPageOfTwo | fastapi_tutorial/simple_api/test_main.py:61-65 | the default first page of heroes 1 and 2 is those two, in id order |
| HeroApi.ListTwoHeroes | fastapi_tutorial/simple_api/main.py:38 | a table of two heroes lists the smaller id first |
| HeroApi.DreamTeamScenario | fastapi_tutorial/simple_api/main.py:41-63 | a hero created on a team is read with the team nested; patching only its age keeps its names and team |
| HeroApi.DeleteTwiceScenario | fastapi_tutorial/simple_api/main.py:66-74 | a delete succeeds once; a second delete and a later read are NotFound |
| HeroApi.UpdateTeamScenario | fastapi_tutorial/simple_api/main.py:104-114 | renaming a team fails as written and succeeds as intended |
| ManyToMany.TeamsOfHero | fastapi_tutorial/sqlmodel_many_to_many.py:26 | `Hero.teams` holds team t iff the link (t, hero) is stored |
| ManyToMany.HeroesOfTeam | fastapi_tutorial/sqlmodel_many_to_many.py:17 | `Team.heroes` holds hero h iff the link (team, h) is stored |
| ManyToMany.ViewsAgree | fastapi_tutorial/sqlmodel_many_to_many.py:17-26 | `back_populates`: t is among h's teams iff h is among t's heroes |
| ManyToMany.WithoutHero | fastapi_tutorial/sqlmodel_many_to_many.py:69 | reference definition, its ensures restating it: the links of every other hero; `Database.ClearTeams` and `UnlinkedHeroHasNoTeams` prove what it gives |
| ManyToMany.HeroesNamed | fastapi_tutorial/sqlmodel_many_to_many.py:66 | reference definition, its ensures restating it: the ids of the heroes called n, as `where(Hero.name == n)` selects them; used by `Database.FindHeroByName` |
| ManyToMany.TeamsNamed | fastapi_tutorial/sqlmodel_many_to_many.py:67 | reference definition, its ensures restating it: the ids of the teams called n, as `where(Team.name == n)` selects them; used by `Database.FindTeamByName` |
| ManyToMany.UnlinkedHeroHasNoTeams | fastapi_tutorial/sqlmodel_many_to_many.py:69 | a hero no link names has no teams |
| ManyToMany.MembershipViews | fastapi_tutorial/sqlmodel_many_to_many.py:33-57 | after the five memberships, Caesar is in both teams, every other new hero in exactly its own, and each team holds exactly its listed heroes |
| ManyToMany.Database.InsertHero | fastapi_tutorial/sqlmodel_many_to_many.py:52-54 | a new hero row under a fresh rowid; teams and links unchanged |
| ManyToMany.Database.InsertTeam | fastapi_tutorial/sqlmodel_many_to_many.py:52-54 | a new team row under a fresh rowid; heroes and links unchanged |
| ManyToMany.Database.Link | fastapi_tutorial/sqlmodel_many_to_many.py:70 | `team.heroes.append(hero)` adds exactly that link; no row changes |
| ManyToMany.Database.ClearTeams | fastapi_tutorial/sqlmodel_many_to_many.py:69 | `hero.teams = []` removes exactly that hero's links; no row changes; the hero then has no teams |
| ManyToMany.Database.FindHeroByName | fastapi_tutorial/sqlmodel_many_to_many.py:66 | succeeds iff exactly one hero has the name, and returns it; otherwise raises |
| ManyToMany.Database.FindTeamByName | fastapi_tutorial/sqlmodel_many_to_many.py:67 | succeeds iff exactly one team has the name, and returns it; otherwise raises |
| ManyToMany.Database.InsertFoundingRows | fastapi_tutorial/sqlmodel_many_to_many.py:35-54 | two teams and four heroes (the shared Caesar once), each under a fresh, distinct id, with the script's field values |
| ManyToMany.Database.LinkFoundingRows | fastapi_tutorial/sqlmodel_many_to_many.py:40-54 | the five membership links are added and nothing else changes |
| ManyToMany.Database.CreateHeroesWithTeams | fastapi_tutorial/sqlmodel_many_to_many.py:33-57 | every nested hero gets an id; Caesar is stored once and linked to Fatherland and Zerg; every other hero is in exactly its one team; links refer to stored rows |
| ManyToMany.Database.UpdateHeroes | fastapi_tutorial/sqlmodel_many_to_many.py:64-73 | fails with no change unless Z1 and Fatherland are unique; otherwise exactly the old links of Z1 are replaced by (Fatherland, Z1), so Z1's teams are {Fatherland}; other heroes' teams and all rows unchanged |
| ManyToMany.Script | fastapi_tutorial/sqlmodel_many_to_many.py:76-79 | on an empty database, Z1 ends in Fatherland only, and Caesar still in both teams |
| SimpleApi.ParseHero | fastapi_tutorial/simple_api.py:15-19 | the body validates iff `name` and `secret_name` are sent non-null; `id` and `age` default to None |
| SimpleApi.ParseBodyOf | fastapi_tutorial/simple_api.py:15-19 | every hero survives the trip to a body and back |
| SimpleApi.ParseWithoutAge | fastapi_tutorial/simple_api.py:19 | a body without `age` gives `age = None` |
| SimpleApi.Listing | fastapi_tutorial/simple_api.py:44-47 | `select(Hero)` without offset or limit: every stored row exactly once, ascending by id |
| SimpleApi.InsertThenList | fastapi_tutorial/simple_api.py:35-47 | after an insert the new row is listed, every earlier row is still listed unchanged, and the listing grows by one |
| SimpleApi.HeroTable.CreateHero | fastapi_tutorial/simple_api.py:35-41 | Invalid and nothing stored for a bad body; ServerError and nothing stored for a taken id or an `id`/`age` outside 64 bits; otherwise stored under the sent id or the next rowid, which was free, and answered with its id set |
| SimpleApi.HeroTable.ReadHeroes | fastapi_tutorial/simple_api.py:44-47 | answers the listing of all stored heroes |
| SimpleApi.CreateTwiceThenList | fastapi_tutorial/simple_api.py:35-47 | two creates on an empty table are listed in creation order under ids 1 and 2 |
| SimpleApi.ListTwo | fastapi_tutorial/simple_api.py:44-47 | a table of two rows lists the smaller key first |
| Items.Decimal | fastapi_tutorial/main.py:8 | `f"{i}"`: a non-empty string of digits, most significant first |
| Items.DecimalRoundTrip | fastapi_tutorial/main.py:8 | reading the digits back gives the number |
| Items.FakeItemsDb | fastapi_tutorial/main.py:8 | 10 entries, entry i named `"item-" + f"{i}"` |
| Items.ItemNamesDistinct | fastapi_tutorial/main.py:8 | different indexes give different item names |
| Items.SliceBound | fastapi_tutorial/main.py:13 | reference definition of Python's slice bound normalisation, its ensures restating it: in range as is, past the end clamped, negative from the end; its consequences are `GetItemWindow` and `GetItemAtMostLimit` |
| Items.PySlice | fastapi_tutorial/main.py:13 | reference definition of `s[a:b]`, its ensures restating it: the normalised range, empty when the bounds cross; its consequences are the `GetItem` lemmas |
| Items.GetItem | fastapi_tutorial/main.py:11-13 | `fake_items_db[skip : skip + limit]` holds at most 10 items |
| Items.GetItemWindow | fastapi_tutorial/main.py:11-13 | for skip, limit ≥ 0: entries skip .. min(skip+limit, 10)-1 in order, empty when skip ≥ 10 |
| Items.GetItemAtMostLimit | fastapi_tutorial/main.py:13 | a non-negative limit bounds the length, whatever the skip |
| Items.GetItemDefaults | fastapi_tutorial/main.py:12-13 | with the defaults, all 10 items |
| Items.GetItemPastEnd | fastapi_tutorial/main.py:13 | skip ≥ 10 gives the empty list for every limit |
| Items.GetItemNegativeLimit | fastapi_tutorial/main.py:12-13 | `limit = -1` stops the slice at `skip - 1`: for the default `skip = 0` all but the last entry, for every other skip the empty list |
| Items.UpdateKeys | fastapi_tutorial/main.py:22-24 | `dict.update` keeps an existing key in its place, appends a new one last, and never duplicates a key |
| Items.UpdateGet | fastapi_tutorial/main.py:22-24 | after `d.update(k=v)`, `k` reads `v` and every other key reads as before |
| Items.AddOptional | fastapi_tutorial/main.py:21-24 | adds `q` iff `q` is a non-empty string, and `description` with the fixed text iff not `short`, after the existing keys |
| Items.ReadItem | fastapi_tutorial/main.py:16-25 | keys `item_id`, `needy`, then `q` iff `q` is non-empty, then `description` iff not `short`, each with its value |
| Items.ReadUserItem | fastapi_tutorial/main.py:28-38 | keys `item_id`, `owner_id = user_id`, never `needy`, then `q` and `description` by the same rules |

## Left out

- The web layer is not modelled: HTTP status codes, JSON encoding, dependency injection and FastAPI's `Query` machinery. A rejection is an `Error` variant.
- `simple_api/database.py` (engine, session generator, table creation) is not part of this model; it is I/O plumbing.
- `simple_api/models/__init__.py` (forward-reference resolution) is not part of this model. Dafny datatypes refer to each other directly.
- `sqlmodel_demo.py` is not part of this model. It is a printing walkthrough, and its store behaviour is covered by the store model.
- Sessions, transactions, refresh and concurrency are not modelled. Each handler, and each function of the many-to-many script, is one atomic step.
- JSON values of the wrong type (a number sent for `name`, say) are not modelled. A body is a record of typed fields, each unset, null or a value.
- The order of keys in response bodies of the store is not modelled. Responses are records.
- Sql.KeyOrder: the order of a `SELECT` without ORDER BY is assumed to be ascending rowid. SQLite does not promise it, so any other order it might return is not modelled. `HeroApi.AllHeroes`, `HeroApi.AllTeams`, `HeroApi.HeroesOfTeam` and `SimpleApi.Listing` state their order under this assumption.
- Sql.NextRowId: the rowid past 9223372036854775807 is not modelled. SQLite then picks an unused rowid at random, or fails with SQLITE_FULL; the model keeps counting up.
- HeroApi.Store.UpdateHero: a null `name` or `secret_name` is refused before any assignment. The source assigns, and the commit then fails; the outcome (an error, no change) is the same.
- ManyToMany.Database.Link: appending a hero that is already in the team is excluded by a precondition. What the ORM flushes then depends on its unit-of-work state.
- ManyToMany.Database.CreateHeroesWithTeams: the ids are stated fresh and distinct, not as specific numbers, because the ORM's insert order decides them.
- ManyToMany.TeamsOfHero: `Hero.teams` and `Team.heroes` are sets of ids. The order of the loaded lists is not modelled.
- The `print` calls in `create_heroes_with_teams` and the `__main__` guard are output only. `main()` is `ManyToMany.Script` on an empty database.

## Findings

| source | as written | input that shows it | evidently intended | confidence | as-written member | corrected member |
|---|---|---|---|---|---|---|
| fastapi_tutorial/simple_api/main.py:109 | `for key, value in team.dict(exclude_unset=True)` iterates the keys and unpacks each key string | PATCH /teams/1/ with `{"name": "Avengers"}`: unpacking `"name"` into two names raises, and the team is unchanged | iterate `.items()` as `update_hero` does, overwriting each sent field | high, not executed | HeroApi.Store.UpdateTeam | HeroApi.Store.UpdateTeamIntended |
| fastapi_tutorial/simple_api/main.py:36 | `limit: Annotated[int, Query(le=100)]` has no lower bound, and SQLite reads `LIMIT -1` as no limit | GET /heroes/?limit=-1 on a table of 101 heroes returns all 101 | `Query(ge=0, le=100)`, so that a page never exceeds 100 rows | medium, not executed | HeroApi.NegativeLimitEscapesBound | HeroApi.BoundedPageAtMost100 |
| fastapi_tutorial/simple_api/main.py:91 | the `read_teams` limit defaults to 0 | GET /teams/ with one team stored returns `[]` | the default of 100 that `read_heroes` has | medium, not executed | HeroApi.TeamDefaultHidesTeams | HeroApi.IntendedTeamDefault |
