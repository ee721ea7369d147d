/** The single-table snapshot in fastapi_tutorial/simple_api.py: one `hero`
    table, used directly as request and response model, with an insert and
    a list-all. */
module SimpleApi {
  import opened Wrappers
  import Sql

  /** The `hero` table row: `id` is the primary key (None before insert). */
  datatype Hero = Hero(id: Option<int>, name: string, secretName: string, age: Option<int>)

  /** The integers an INSERT of `h` binds: `id` and `age`. */
  predicate Bindable(h: Hero) {
    Sql.BindableOption(h.id) && Sql.BindableOption(h.age)
  }

  /** The JSON body of `POST /heroes/`, key by key. */
  datatype HeroBody = HeroBody(id: Field<int>, name: Field<string>, secretName: Field<string>, age: Field<int>)

  /** Validating the body against `Hero`: `name` and `secret_name` are
      required strings, `id` and `age` optional and None by default. */
  function ParseHero(body: HeroBody): (r: Result<Hero>)
    ensures r.Ok? <==> body.name.Value? && body.secretName.Value?
    ensures r.Err? ==> r.error == Invalid
    ensures r.Ok? ==> r.value.name == body.name.value && r.value.secretName == body.secretName.value
    ensures r.Ok? ==> r.value.id == body.id.Nullable() && r.value.age == body.age.Nullable()
  {
    if body.name.Value? && body.secretName.Value? then
      Ok(Hero(body.id.Nullable(), body.name.value, body.secretName.value, body.age.Nullable()))
    else
      Err(Invalid)
  }

  /** The body a client sends for `h`, leaving out the keys that are None. */
  function BodyOf(h: Hero): HeroBody
  {
    HeroBody(if h.id.Some? then Value(h.id.value) else Unset, Value(h.name), Value(h.secretName),
             if h.age.Some? then Value(h.age.value) else Unset)
  }

  /** Every hero survives the trip to a body and back. */
  lemma ParseBodyOf(h: Hero)
    ensures ParseHero(BodyOf(h)) == Ok(h)
  {
  }

  /** A body without `age` parses to `age = None`. */
  lemma ParseWithoutAge(name: string, secretName: string)
    ensures ParseHero(HeroBody(Unset, Value(name), Value(secretName), Unset)) == Ok(Hero(None, name, secretName, None))
  {
  }

  /** The rows under `ids`, in that order. */
  function RowsAt(ids: seq<int>, rows: map<int, Hero>): (heroes: seq<Hero>)
    requires forall i | 0 <= i < |ids| :: ids[i] in rows
    ensures |heroes| == |ids|
    ensures forall i | 0 <= i < |ids| :: heroes[i] == rows[ids[i]]
    decreases |ids|
  {
    if ids == [] then [] else [rows[ids[0]]] + RowsAt(ids[1..], rows)
  }

  /** Every row carries its own key. */
  ghost predicate Keyed(rows: map<int, Hero>)
  {
    forall k | k in rows :: rows[k].id == Some(k)
  }

  /** `select(Hero)` with no ORDER BY, no OFFSET and no LIMIT: every stored
      row exactly once, in ascending id order, the scan order `Sql.KeyOrder`
      assumes. */
  function Listing(rows: map<int, Hero>): (heroes: seq<Hero>)
    requires Keyed(rows)
    ensures |heroes| == |rows|
    ensures forall i | 0 <= i < |heroes| :: heroes[i].id.Some? && heroes[i].id.value in rows && heroes[i] == rows[heroes[i].id.value]
    ensures forall i, j | 0 <= i < j < |heroes| :: heroes[i].id.value < heroes[j].id.value
    ensures forall k | k in rows :: rows[k] in heroes
  {
    var ids := Sql.KeyOrder(rows.Keys);
    ListingInKeyOrder(rows, ids);
    RowsAt(ids, rows)
  }

  lemma ListingInKeyOrder(rows: map<int, Hero>, ids: seq<int>)
    requires Keyed(rows) && ids == Sql.KeyOrder(rows.Keys)
    ensures var heroes := RowsAt(ids, rows);
      && |heroes| == |rows|
      && (forall i | 0 <= i < |heroes| :: heroes[i].id == Some(ids[i]))
      && (forall i, j | 0 <= i < j < |heroes| :: heroes[i].id.value < heroes[j].id.value)
      && (forall k | k in rows :: rows[k] in heroes)
  {
    var heroes := RowsAt(ids, rows);
    assert |rows.Keys| == |rows|;
    forall i | 0 <= i < |heroes| ensures heroes[i].id == Some(ids[i]) {
      var k := ids[i];
      assert heroes[i] == rows[k];
    }
    forall k | k in rows ensures rows[k] in heroes {
      var i :| 0 <= i < |ids| && ids[i] == k;
      assert heroes[i] == rows[k];
    }
  }

  /** An inserted row is listed, and every row stored before is still listed
      as it was. */
  lemma {:induction false} InsertThenList(rows: map<int, Hero>, k: int, h: Hero)
    requires Keyed(rows) && k !in rows && h.id == Some(k)
    ensures h in Listing(rows[k := h])
    ensures forall j | j in rows :: rows[j] in Listing(rows[k := h])
    ensures |Listing(rows[k := h])| == |Listing(rows)| + 1
  {
    var after := rows[k := h];
    assert Keyed(after);
    assert after[k] == h;
    forall j | j in rows ensures rows[j] in Listing(after) {
      assert after[j] == rows[j];
    }
    assert after.Keys == rows.Keys + {k};
    assert |after.Keys| == |rows.Keys| + 1;
    assert |after| == |rows| + 1 by {
      assert |after.Keys| == |after| && |rows.Keys| == |rows|;
    }
  }

  /** The table of this snapshot. */
  class HeroTable {
    var rows: map<int, Hero>

    /** The primary key: every row is stored under its own id, so no two rows
        share one. */
    ghost predicate Valid()
      reads this
    {
      Keyed(rows)
    }

    constructor ()
      ensures Valid() && rows == map[]
    {
      rows := map[];
    }

    /** `create_hero`: validate the body, insert and refresh. A body without
        an id gets the next rowid; an id the client sends is used as is, and
        one already stored violates the primary key, so the commit raises and
        nothing is stored. So does a sent `id` or `age` outside 64 bits, which
        the INSERT cannot bind. */
    method CreateHero(body: HeroBody) returns (r: Result<Hero>)
      requires Valid()
      modifies this
      ensures Valid()
      ensures ParseHero(body).Err? ==> r == Err(Invalid) && rows == old(rows)
      ensures ParseHero(body).Ok? && !Bindable(ParseHero(body).value) ==> r == Err(ServerError) && rows == old(rows)
      ensures ParseHero(body).Ok? && body.id.Value? && body.id.value in old(rows) ==>
                r == Err(ServerError) && rows == old(rows)
      ensures r.Ok? ==> ParseHero(body).Ok? && Bindable(ParseHero(body).value) && r.value.id.Some?
      ensures r.Ok? ==> var id := r.value.id.value;
                && id !in old(rows)
                && (body.id.Value? ==> id == body.id.value)
                && (!body.id.Value? ==> id == Sql.NextRowId(old(rows).Keys))
                && r.value == ParseHero(body).value.(id := Some(id))
                && rows == old(rows)[id := r.value]
      ensures ParseHero(body).Ok? && Bindable(ParseHero(body).value) && !(body.id.Value? && body.id.value in old(rows)) ==> r.Ok?
    {
      var parsed := ParseHero(body);
      if parsed.Err? {
        return Err(parsed.error);
      }
      if !Bindable(parsed.value) {
        return Err(ServerError);
      }
      var id;
      if parsed.value.id.Some? {
        id := parsed.value.id.value;
        if id in rows {
          return Err(ServerError);
        }
      } else {
        id := Sql.NextRowId(rows.Keys);
      }
      var stored := parsed.value.(id := Some(id));
      rows := rows[id := stored];
      r := Ok(stored);
    }

    /** `read_heroes`: every stored hero, in id order. */
    method ReadHeroes() returns (heroes: seq<Hero>)
      requires Valid()
      ensures heroes == Listing(rows)
    {
      heroes := Listing(rows);
    }
  }

  /** Two creates on an empty table, then a list: both heroes come back in
      the order they were created, under ids 1 and 2, without an age. */
  method CreateTwiceThenList() returns (heroes: seq<Hero>)
    ensures heroes == [Hero(Some(1), "Hero1", "secret1", None), Hero(Some(2), "Hero2", "secret2", None)]
  {
    var table := new HeroTable();
    var first := table.CreateHero(HeroBody(Unset, Value("Hero1"), Value("secret1"), Unset));
    assert table.rows == map[1 := Hero(Some(1), "Hero1", "secret1", None)];
    var second := table.CreateHero(HeroBody(Unset, Value("Hero2"), Value("secret2"), Unset));
    assert Sql.NextRowId({1}) == 2;
    assert table.rows.Keys == {1, 2};
    heroes := table.ReadHeroes();
    ListTwo(table.rows, 1, 2);
  }

  /** A table of two rows lists the smaller key first. */
  lemma ListTwo(rows: map<int, Hero>, a: int, b: int)
    requires Keyed(rows) && rows.Keys == {a, b} && a < b
    ensures Listing(rows) == [rows[a], rows[b]]
  {
    var l := Listing(rows);
    assert |rows| == |rows.Keys| == 2;
    assert rows[a] in l && rows[b] in l;
    assert l[0].id.value < l[1].id.value;
  }
}
