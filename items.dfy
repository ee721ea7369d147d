/** The small endpoints of fastapi_tutorial/main.py: a ten-item fake
    database read through a Python slice, and two handlers that build a
    response dict with conditional `dict.update` calls. */
module Items {
  import opened Wrappers

  /** One entry of `fake_items_db`: `{"item_name": ...}`. */
  datatype Item = Item(itemName: string)

  /** The decimal digit of `d`. */
  function DigitChar(d: nat): (c: char)
    requires d < 10
    ensures '0' <= c <= '9'
    ensures c as int - '0' as int == d
  {
    ('0' as int + d) as char
  }

  /** `f"{n}"` for a natural number: its decimal digits, most significant first. */
  function Decimal(n: nat): (s: string)
    ensures |s| >= 1
    ensures forall i | 0 <= i < |s| :: '0' <= s[i] <= '9'
    decreases n
  {
    if n < 10 then [DigitChar(n)] else Decimal(n / 10) + [DigitChar(n % 10)]
  }

  /** Reading the digits back gives the number. */
  function DecimalValue(s: string): nat
    requires forall i | 0 <= i < |s| :: '0' <= s[i] <= '9'
    decreases |s|
  {
    if s == [] then 0 else DecimalValue(s[..|s| - 1]) * 10 + (s[|s| - 1] as int - '0' as int)
  }

  /** `f"{n}"` is lossless, so different numbers name different items. */
  lemma {:induction false} DecimalRoundTrip(n: nat)
    ensures DecimalValue(Decimal(n)) == n
    decreases n
  {
    var s := Decimal(n);
    if n >= 10 {
      DecimalRoundTrip(n / 10);
      assert s[..|s| - 1] == Decimal(n / 10);
    } else {
      assert s[..|s| - 1] == [];
    }
  }

  /** `fake_items_db = [{"item_name": f"item-{i}"} for i in range(10)]`. */
  function FakeItemsDb(): (db: seq<Item>)
    ensures |db| == 10
    ensures forall i | 0 <= i < 10 :: db[i].itemName == "item-" + Decimal(i)
  {
    seq(10, i requires 0 <= i < 10 => Item("item-" + Decimal(i)))
  }

  /** Item names are `f"item-{i}"` of distinct numbers, so no two entries of
      the fake database share a name. */
  lemma ItemNamesDistinct(i: nat, j: nat)
    requires i != j
    ensures "item-" + Decimal(i) != "item-" + Decimal(j)
  {
    var a, b := "item-" + Decimal(i), "item-" + Decimal(j);
    if a == b {
      assert a[5..] == Decimal(i) && b[5..] == Decimal(j);
      DecimalRoundTrip(i);
      DecimalRoundTrip(j);
    }
  }

  /** Python's bound normalisation for a slice with step 1: a negative bound
      counts from the end, and the result is clamped to `0..n`. */
  function SliceBound(i: int, n: nat): (b: nat)
    ensures b <= n
    ensures 0 <= i <= n ==> b == i
    ensures i > n ==> b == n
    ensures i < 0 ==> b == if i + n < 0 then 0 else i + n
  {
    if i < 0 then (if i + n < 0 then 0 else i + n) else if i > n then n else i
  }

  /** `s[start:stop]` in Python: empty when the normalised bounds cross. */
  function PySlice<T>(s: seq<T>, start: int, stop: int): (r: seq<T>)
    ensures SliceBound(start, |s|) <= SliceBound(stop, |s|) ==> r == s[SliceBound(start, |s|)..SliceBound(stop, |s|)]
    ensures SliceBound(start, |s|) > SliceBound(stop, |s|) ==> r == []
  {
    var a, b := SliceBound(start, |s|), SliceBound(stop, |s|);
    if a <= b then s[a..b] else []
  }

  /** The defaults of `get_item`. */
  const DefaultSkip := 0
  const DefaultLimit := 10

  /** `get_item(skip, limit)`: `fake_items_db[skip : skip + limit]`. */
  function GetItem(skip: int, limit: int): (items: seq<Item>)
    ensures |items| <= 10
  {
    PySlice(FakeItemsDb(), skip, skip + limit)
  }

  /** For a non-negative skip and limit the page is the entries from `skip`
      up to `skip + limit` or the end, whichever comes first. */
  lemma GetItemWindow(skip: int, limit: int)
    requires skip >= 0 && limit >= 0
    ensures skip >= 10 ==> GetItem(skip, limit) == []
    ensures skip < 10 ==> GetItem(skip, limit) == FakeItemsDb()[skip..if skip + limit < 10 then skip + limit else 10]
    ensures forall i | 0 <= i < |GetItem(skip, limit)| :: GetItem(skip, limit)[i] == FakeItemsDb()[skip + i]
  {
  }

  /** A non-negative limit bounds the page, whatever the skip (a negative skip
      counts from the end). */
  lemma GetItemAtMostLimit(skip: int, limit: int)
    requires limit >= 0
    ensures |GetItem(skip, limit)| <= limit
  {
    var a, b := SliceBound(skip, 10), SliceBound(skip + limit, 10);
    if a <= b {
      assert |GetItem(skip, limit)| == b - a;
      if skip < 0 && skip + limit >= 0 {
        assert a >= skip + 10;
      }
    }
  }

  /** With the default arguments every item comes back. */
  lemma GetItemDefaults()
    ensures GetItem(DefaultSkip, DefaultLimit) == FakeItemsDb()
  {
  }

  /** Skipping the whole database leaves nothing, whatever the limit. */
  lemma GetItemPastEnd(skip: int, limit: int)
    requires skip >= 10
    ensures GetItem(skip, limit) == []
  {
  }

  /** The query parameter `limit` has no lower bound. `limit = -1` makes the
      stop `skip - 1`: with the default `skip = 0` that is one entry before
      the end, as a Python slice reads it; for every other skip the stop
      falls before the start, and the page is empty. */
  lemma GetItemNegativeLimit(skip: int)
    ensures GetItem(skip, -1) == if skip == 0 then FakeItemsDb()[..9] else []
  {
  }

  /** The values a response dict holds here. */
  datatype JsonValue = JString(s: string) | JInt(n: int)

  /** A Python dict: its entries in insertion order. */
  type Dict = seq<(string, JsonValue)>

  /** The keys of `d`, in order. */
  function Keys(d: Dict): (ks: seq<string>)
    ensures |ks| == |d|
    ensures forall i | 0 <= i < |d| :: ks[i] == d[i].0
  {
    if d == [] then [] else [d[0].0] + Keys(d[1..])
  }

  /** A dict never holds a key twice. */
  predicate DistinctKeys(d: Dict)
  {
    d == [] || (d[0].0 !in Keys(d[1..]) && DistinctKeys(d[1..]))
  }

  /** `d.get(k)`. */
  function Get(d: Dict, k: string): (v: Option<JsonValue>)
    ensures v.Some? <==> k in Keys(d)
    ensures v.Some? ==> (k, v.value) in d
  {
    if d == [] then None else if d[0].0 == k then Some(d[0].1) else Get(d[1..], k)
  }

  /** `d.update(k=v)`: replace the value of an existing key in place, or
      append a new key. */
  function Update(d: Dict, k: string, v: JsonValue): Dict
  {
    if d == [] then [(k, v)]
    else if d[0].0 == k then [(k, v)] + d[1..]
    else [d[0]] + Update(d[1..], k, v)
  }

  /** After `d.update(k=v)` an existing key keeps its place and a new key
      comes last, and still no key is held twice. */
  lemma {:induction false} UpdateKeys(d: Dict, k: string, v: JsonValue)
    requires DistinctKeys(d)
    ensures DistinctKeys(Update(d, k, v))
    ensures k in Keys(d) ==> Keys(Update(d, k, v)) == Keys(d)
    ensures k !in Keys(d) ==> Keys(Update(d, k, v)) == Keys(d) + [k]
  {
    if d == [] {
      Cons((k, v), []);
    } else if d[0].0 == k {
      Cons((k, v), d[1..]);
      Cons(d[0], d[1..]);
    } else {
      UpdateKeys(d[1..], k, v);
      Cons(d[0], Update(d[1..], k, v));
      Cons(d[0], d[1..]);
    }
  }

  /** After `d.update(k=v)` the key `k` holds `v` and no other key changes. */
  lemma {:induction false} UpdateGet(d: Dict, k: string, v: JsonValue)
    ensures Get(Update(d, k, v), k) == Some(v)
    ensures forall j | j != k :: Get(Update(d, k, v), j) == Get(d, j)
  {
    if d == [] {
      Cons((k, v), []);
    } else if d[0].0 == k {
      Cons((k, v), d[1..]);
      Cons(d[0], d[1..]);
    } else {
      UpdateGet(d[1..], k, v);
      Cons(d[0], Update(d[1..], k, v));
      Cons(d[0], d[1..]);
    }
  }

  /** How a dict with `x` in front of `d` reads. */
  lemma Cons(x: (string, JsonValue), d: Dict)
    ensures Keys([x] + d) == [x.0] + Keys(d)
    ensures forall j :: Get([x] + d, j) == if x.0 == j then Some(x.1) else Get(d, j)
    ensures DistinctKeys([x] + d) <==> x.0 !in Keys(d) && DistinctKeys(d)
  {
    assert ([x] + d)[1..] == d;
  }

  /** The text `read_item` and `read_user_item` put under `description`. */
  const Description := "This is an amazing item that has a long description"

  /** Python's `if q:` for `q: str | None`: set and not empty. */
  predicate Truthy(q: Option<string>)
  {
    q.Some? && q.value != ""
  }

  /** The optional keys both handlers add to a dict that has neither yet. */
  method AddOptional(data: Dict, q: Option<string>, short: bool) returns (out: Dict)
    requires DistinctKeys(data) && "q" !in Keys(data) && "description" !in Keys(data)
    ensures DistinctKeys(out)
    ensures Keys(out) == Keys(data) + (if Truthy(q) then ["q"] else []) + (if short then [] else ["description"])
    ensures forall k | k != "q" && k != "description" :: Get(out, k) == Get(data, k)
    ensures Get(out, "q") == if Truthy(q) then Some(JString(q.value)) else None
    ensures Get(out, "description") == if short then None else Some(JString(Description))
  {
    out := data;
    if Truthy(q) {
      UpdateKeys(out, "q", JString(q.value));
      UpdateGet(out, "q", JString(q.value));
      out := Update(out, "q", JString(q.value));
    }
    if !short {
      UpdateKeys(out, "description", JString(Description));
      UpdateGet(out, "description", JString(Description));
      out := Update(out, "description", JString(Description));
    }
  }

  /** `read_item`: `item_id` and `needy` always, `q` only when it is a
      non-empty string, `description` only when `short` is false. */
  method ReadItem(itemId: string, needy: string, q: Option<string>, short: bool) returns (data: Dict)
    ensures DistinctKeys(data)
    ensures Keys(data) == ["item_id", "needy"] + (if Truthy(q) then ["q"] else []) + (if short then [] else ["description"])
    ensures Get(data, "item_id") == Some(JString(itemId)) && Get(data, "needy") == Some(JString(needy))
    ensures Get(data, "q") == if Truthy(q) then Some(JString(q.value)) else None
    ensures Get(data, "description") == if short then None else Some(JString(Description))
  {
    data := [("item_id", JString(itemId)), ("needy", JString(needy))];
    assert Keys(data) == ["item_id", "needy"];
    data := AddOptional(data, q, short);
  }

  /** `read_user_item`: `item_id` and `owner_id = user_id` always, never
      `needy`, and `q` and `description` by the same rules as `read_item`. */
  method ReadUserItem(userId: int, itemId: string, q: Option<string>, short: bool) returns (data: Dict)
    ensures DistinctKeys(data)
    ensures Keys(data) == ["item_id", "owner_id"] + (if Truthy(q) then ["q"] else []) + (if short then [] else ["description"])
    ensures Get(data, "item_id") == Some(JString(itemId)) && Get(data, "owner_id") == Some(JInt(userId))
    ensures Get(data, "needy") == None
    ensures Get(data, "q") == if Truthy(q) then Some(JString(q.value)) else None
    ensures Get(data, "description") == if short then None else Some(JString(Description))
  {
    data := [("item_id", JString(itemId)), ("owner_id", JInt(userId))];
    assert Keys(data) == ["item_id", "owner_id"];
    data := AddOptional(data, q, short);
  }
}
