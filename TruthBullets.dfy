/**
  The per-guild catalog of truth bullets (clue records), truth_bullets.py.
  A catalog is a dictionary from an auto-incremented id to a bullet together
  with the next id to hand out. Only the fresh store is modelled: loading and
  saving the JSON file are left out.
 */
module TruthBullets {
  import opened Wrappers

  /** A clue record; `imageUrl` is None when no image was attached. */
  datatype Bullet = Bullet(id: int, name: string, description: string, imageUrl: Option<string>)

  /** A value in the dictionary that `dataclasses.asdict` produces for a bullet. */
  datatype Value = IntValue(i: int) | StrValue(s: string) | NullValue

  /** The field names of a bullet, which are the keys `asdict` writes and `TruthBullet(**data)` accepts. */
  const Fields: set<string> := {"id", "name", "description", "image_url"}

  /** `TruthBullet.to_dict` (truth_bullets.py:14-15). */
  function ToDict(b: Bullet): (d: map<string, Value>)
    ensures d.Keys == Fields
    ensures d["id"] == IntValue(b.id)
    ensures d["name"] == StrValue(b.name) && d["description"] == StrValue(b.description)
  {
    map["id" := IntValue(b.id),
        "name" := StrValue(b.name),
        "description" := StrValue(b.description),
        "image_url" := match b.imageUrl case None => NullValue case Some(u) => StrValue(u)]
  }

  /**
    `TruthBullet.from_dict` (truth_bullets.py:17-19): the keyword call
    `TruthBullet(**data)` fails on a missing required field or an unknown key;
    `image_url` defaults to None.
   */
  function FromDict(d: map<string, Value>): (r: Option<Bullet>)
    ensures r.Some? ==> d.Keys <= Fields && "id" in d && "name" in d && "description" in d
    ensures r.Some? ==> d["id"] == IntValue(r.value.id) && d["name"] == StrValue(r.value.name)
    ensures r.Some? ==> d["description"] == StrValue(r.value.description)
    ensures r.Some? ==> (r.value.imageUrl.None? <==> "image_url" !in d || d["image_url"].NullValue?)
  {
    if !(d.Keys <= Fields) || "id" !in d || "name" !in d || "description" !in d then None
    else if !d["id"].IntValue? || !d["name"].StrValue? || !d["description"].StrValue? then None
    else if "image_url" in d && d["image_url"].IntValue? then None
    else
      var url := if "image_url" in d && d["image_url"].StrValue? then Some(d["image_url"].s) else None;
      Some(Bullet(d["id"].i, d["name"].s, d["description"].s, url))
  }

  /** A dictionary naming only id, name and description is read with the dataclass default `image_url = None` (truth_bullets.py:12). */
  lemma FromDictDefault(id: int, name: string, description: string)
    ensures FromDict(map["id" := IntValue(id), "name" := StrValue(name), "description" := StrValue(description)])
      == Some(Bullet(id, name, description, None))
  {
  }

  /** Reading back what `to_dict` wrote gives the same bullet. */
  lemma FromDictToDict(b: Bullet)
    ensures FromDict(ToDict(b)) == Some(b)
  {
  }

  /** A dictionary that names all four fields and is accepted is exactly what `to_dict` writes for the bullet it reads. */
  lemma ToDictFromDict(d: map<string, Value>)
    requires FromDict(d).Some? && d.Keys == Fields
    ensures ToDict(FromDict(d).value) == d
  {
    var b := FromDict(d).value;
    assert ToDict(b).Keys == d.Keys;
  }

  /** The preview of a description in the bullet listing (Main.py:230): at most 100 characters, then "..." when cut. */
  function Preview(description: string): (r: string)
    ensures |description| <= 100 ==> r == description
    ensures |description| > 100 ==> |r| == 103 && r[..100] == description[..100] && r[100..] == "..."
  {
    if |description| > 100 then description[..100] + "..." else description
  }

  // ---- identifier parsing and name comparison used by get_bullet ----

  predicate IsDigit(c: char) { '0' <= c <= '9' }

  predicate AllDigits(s: string) { forall i :: 0 <= i < |s| ==> IsDigit(s[i]) }

  /** The value of a string of decimal digits. */
  function DigitsValue(s: string): nat
    requires AllDigits(s)
  {
    if s == [] then 0 else DigitsValue(s[..|s| - 1]) * 10 + (s[|s| - 1] as int - '0' as int)
  }

  /** `int(identifier)` for an optional sign followed by ASCII digits; None where Python raises ValueError. */
  function ParseInt(s: string): (r: Option<int>)
    ensures s == [] ==> r.None?
    ensures s != [] && AllDigits(s) ==> r == Some(DigitsValue(s))
    ensures r.Some? && r.value < 0 ==> s[0] == '-'
    ensures r.Some? ==> AllDigits(s) || (|s| > 1 && (s[0] == '-' || s[0] == '+') && AllDigits(s[1..]))
    ensures |s| > 1 && s[0] == '-' && AllDigits(s[1..]) ==> r == Some(-(DigitsValue(s[1..]) as int))
    ensures |s| > 1 && s[0] == '+' && AllDigits(s[1..]) ==> r == Some(DigitsValue(s[1..]) as int)
  {
    if |s| > 1 && (s[0] == '-' || s[0] == '+') && AllDigits(s[1..]) then
      Some(if s[0] == '-' then -(DigitsValue(s[1..]) as int) else DigitsValue(s[1..]))
    else if |s| > 0 && AllDigits(s) then Some(DigitsValue(s))
    else None
  }

  /** The decimal digits of `n`, most significant first, as `str(n)` writes them. */
  function Decimal(n: nat): (d: string)
    ensures d != [] && AllDigits(d)
  {
    var last := [(n % 10 + '0' as int) as char];
    if n < 10 then last else Decimal(n / 10) + last
  }

  /** Reading back what `str(n)` writes gives `n`: an id typed as shown is looked up by id. */
  lemma {:induction false} ParseDecimal(n: nat)
    ensures ParseInt(Decimal(n)) == Some(n)
  {
    DigitsDecimal(n);
  }

  lemma {:induction false} DigitsDecimal(n: nat)
    ensures DigitsValue(Decimal(n)) == n
  {
    var d := Decimal(n);
    if n >= 10 {
      DigitsDecimal(n / 10);
      assert d[..|d| - 1] == Decimal(n / 10);
    }
  }

  function LowerChar(c: char): char
  {
    if 'A' <= c <= 'Z' then (c as int - 'A' as int + 'a' as int) as char else c
  }

  /** `s.lower()` over ASCII letters. */
  function Lower(s: string): (r: string)
    ensures |r| == |s|
    ensures forall i :: 0 <= i < |r| ==> !('A' <= r[i] <= 'Z')
    ensures forall i :: 0 <= i < |s| && !('A' <= s[i] <= 'Z') ==> r[i] == s[i]
    ensures forall i :: 0 <= i < |s| && 'A' <= s[i] <= 'Z' ==> r[i] as int == s[i] as int + 32
  {
    seq(|s|, i requires 0 <= i < |s| => LowerChar(s[i]))
  }

  /** The name comparison of truth_bullets.py:89: equal lengths and equal characters up to ASCII case. */
  predicate SameName(a: string, b: string)
    ensures SameName(a, b) <==> |a| == |b| && forall i :: 0 <= i < |a| ==> LowerChar(a[i]) == LowerChar(b[i])
    ensures a == b ==> SameName(a, b)
  {
    Lower(a) == Lower(b)
  }

  /** Strictly increasing, hence also free of repeats. */
  ghost predicate Ascending(ks: seq<int>)
  {
    forall i, j :: 0 <= i < j < |ks| ==> ks[i] < ks[j]
  }

  /** `ks` without `k`. */
  function Without(ks: seq<int>, k: int): (r: seq<int>)
    ensures forall x :: x in r <==> x in ks && x != k
    ensures Ascending(ks) ==> Ascending(r)
    ensures k !in ks ==> r == ks
  {
    if ks == [] then []
    else if ks[0] == k then Without(ks[1..], k)
    else
      var rest := Without(ks[1..], k);
      assert Ascending(ks) ==> Ascending([ks[0]] + rest) by {
        if Ascending(ks) {
          forall j | 0 <= j < |rest| ensures ks[0] < rest[j] {
            assert rest[j] in rest;
            var p :| 0 <= p < |ks| - 1 && ks[1..][p] == rest[j];
            assert ks[p + 1] == rest[j];
          }
        }
      }
      [ks[0]] + rest
  }

  /** `TruthBulletManager`: the dictionary `bullets` in insertion order and the counter `next_id`. */
  class Manager {
    const guildId: int
    var bullets: map<int, Bullet>
    /** The keys of `bullets` in the order they were inserted (the iteration order of a Python dict). */
    var order: seq<int>
    var nextId: int

    /** Every key is its bullet's id, lies in [1, next_id), and the insertion order lists each key once. */
    ghost predicate Valid()
      reads this
    {
      && nextId >= 1
      && (forall k :: k in bullets ==> bullets[k].id == k && 1 <= k < nextId)
      && (forall k :: k in bullets <==> k in order)
      && (forall i :: 0 <= i < |order| ==> order[i] in bullets)
      && Ascending(order)
    }

    /** A manager for a guild with no stored file (truth_bullets.py:32-36 with 51-53). */
    constructor (guildId: int)
      ensures Valid()
      ensures this.guildId == guildId && bullets == map[] && order == [] && nextId == 1
    {
      this.guildId := guildId;
      bullets := map[];
      order := [];
      nextId := 1;
    }

    /** `add_bullet` (truth_bullets.py:62-72): the new bullet takes `next_id`, which was free, and the counter moves on by one. */
    method AddBullet(name: string, description: string, imageUrl: Option<string>) returns (b: Bullet)
      requires Valid()
      modifies this`bullets, this`order, this`nextId
      ensures Valid()
      ensures b == Bullet(old(nextId), name, description, imageUrl)
      ensures old(nextId) !in old(bullets)
      ensures bullets == old(bullets)[b.id := b]
      ensures forall k :: k in old(bullets) ==> k in bullets && bullets[k] == old(bullets)[k]
      ensures nextId == old(nextId) + 1
      ensures order == old(order) + [b.id]
    {
      b := Bullet(nextId, name, description, imageUrl);
      bullets := bullets[b.id := b];
      order := order + [b.id];
      nextId := nextId + 1;
    }

    /** `remove_bullet` (truth_bullets.py:74-79): True exactly when the id was stored, and then only that entry goes. */
    method RemoveBullet(id: int) returns (removed: bool)
      requires Valid()
      modifies this`bullets, this`order
      ensures Valid()
      ensures removed == (id in old(bullets))
      ensures bullets == old(bullets) - {id}
      ensures order == Without(old(order), id)
      ensures !removed ==> bullets == old(bullets) && order == old(order)
    {
      removed := id in bullets;
      if removed {
        bullets := bullets - {id};
        order := Without(order, id);
      }
    }

    /**
      `get_bullet` (truth_bullets.py:81-91). An identifier that parses as an
      integer is looked up by id only; any other identifier selects the
      first bullet in insertion order whose name matches ignoring case.
     */
    method GetBullet(identifier: string) returns (r: Option<Bullet>)
      requires Valid()
      ensures ParseInt(identifier).Some? ==>
        var n := ParseInt(identifier).value;
        r == if n in bullets then Some(bullets[n]) else None
      ensures ParseInt(identifier).None? ==>
        (r.None? <==> forall k :: k in bullets ==> !SameName(bullets[k].name, identifier))
      ensures ParseInt(identifier).None? && r.Some? ==>
        && r.value.id in bullets && bullets[r.value.id] == r.value
        && SameName(r.value.name, identifier)
        && forall k :: k in bullets && k < r.value.id ==> !SameName(bullets[k].name, identifier)
    {
      var parsed := ParseInt(identifier);
      if parsed.Some? {
        var n := parsed.value;
        r := if n in bullets then Some(bullets[n]) else None;
        return;
      }
      for i := 0 to |order|
        invariant forall j :: 0 <= j < i ==> !SameName(bullets[order[j]].name, identifier)
      {
        var b := bullets[order[i]];
        if SameName(b.name, identifier) {
          forall k | k in bullets && k < b.id
            ensures !SameName(bullets[k].name, identifier)
          {
            var j :| 0 <= j < |order| && order[j] == k;
            assert j < i;
          }
          return Some(b);
        }
      }
      forall k | k in bullets
        ensures !SameName(bullets[k].name, identifier)
      {
        var j :| 0 <= j < |order| && order[j] == k;
      }
      r := None;
    }

    /** `get_all_bullets` (truth_bullets.py:93-94): every stored bullet once, in strictly ascending id. */
    function AllBullets(): (r: seq<Bullet>)
      reads this
      requires Valid()
      ensures forall i :: 0 <= i < |r| ==> r[i].id in bullets && bullets[r[i].id] == r[i]
      ensures forall i, j :: 0 <= i < j < |r| ==> r[i].id < r[j].id
      ensures forall k :: k in bullets ==> bullets[k] in r
    {
      var ks, m := order, bullets;
      var r := seq(|ks|, i requires 0 <= i < |ks| => m[ks[i]]);
      assert forall k :: k in bullets ==> bullets[k] in r by {
        forall k | k in bullets ensures bullets[k] in r {
          var j :| 0 <= j < |ks| && ks[j] == k;
          assert r[j] == bullets[k];
        }
      }
      r
    }
  }
}
