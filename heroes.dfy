/** The hero service: heroes with an auto-assigned integer id, a name, an
    optional age and a secret name, stored in a `heroes` table and patched
    with the fields a client sends. */
module Heroes {
  import opened Common

  /** A row object of the `heroes` table. The name and the secret name are
      NOT NULL columns but can hold null in memory once a patch assigns it;
      the age is a nullable column. */
  datatype Hero = Hero(id: int, name: Option<string>, age: Option<int>, secretName: Option<string>)

  /** The body of a create request: the name and the secret name are
      required, the age defaults to null. There is no id field. */
  datatype HeroCreate = HeroCreate(name: string, age: Option<int>, secretName: string)

  /** The body of a patch request, without an id field. The outer Option
      says whether the field was sent, the inner one is the sent value,
      which may be null. */
  datatype HeroUpdate = HeroUpdate(
    name: Option<Option<string>>,
    age: Option<Option<int>>,
    secretName: Option<Option<string>>)

  const EmptyUpdate := HeroUpdate(None, None, None)

  predicate NothingSent(p: HeroUpdate)
  {
    p.name.None? && p.age.None? && p.secretName.None?
  }

  /** The row a create request builds, under the id the table assigns. */
  function NewHero(id: int, c: HeroCreate): (h: Hero)
    ensures h.id == id && h.name == Some(c.name) && h.age == c.age && h.secretName == Some(c.secretName)
  {
    Hero(id, Some(c.name), c.age, Some(c.secretName))
  }

  /** The row after `sqlmodel_update` with the sent fields: a sent field
      takes the sent value (null included), an unsent one keeps the stored
      value, and the id is never touched. */
  function Merge(h: Hero, p: HeroUpdate): (r: Hero)
    ensures r.id == h.id
    ensures p.name.None? ==> r.name == h.name
    ensures p.name.Some? ==> r.name == p.name.value
    ensures p.age.None? ==> r.age == h.age
    ensures p.age.Some? ==> r.age == p.age.value
    ensures p.secretName.None? ==> r.secretName == h.secretName
    ensures p.secretName.Some? ==> r.secretName == p.secretName.value
    ensures NothingSent(p) ==> r == h
  {
    h.(name := Patched(h.name, p.name),
       age := Patched(h.age, p.age),
       secretName := Patched(h.secretName, p.secretName))
  }

  /** The patch `q` applied after `p`: q's sent fields win. */
  function Then(p: HeroUpdate, q: HeroUpdate): HeroUpdate
  {
    HeroUpdate(if q.name.Some? then q.name else p.name,
               if q.age.Some? then q.age else p.age,
               if q.secretName.Some? then q.secretName else p.secretName)
  }

  /** Sending the same patch twice has the effect of sending it once. */
  lemma MergeIdempotent(h: Hero, p: HeroUpdate)
    ensures Merge(Merge(h, p), p) == Merge(h, p)
  {
  }

  /** Two patches in a row are one patch whose later fields win. */
  lemma MergeThen(h: Hero, p: HeroUpdate, q: HeroUpdate)
    ensures Merge(Merge(h, p), q) == Merge(h, Then(p, q))
  {
  }

  /** A patch with only the age changes the age and nothing else. */
  lemma AgeOnlyPatch(h: Hero, age: Option<int>)
    ensures Merge(h, HeroUpdate(None, Some(age), None)) == h.(age := age)
  {
  }

  /** The NOT NULL columns. */
  predicate NotNullOk(h: Hero)
  {
    h.name.Some? && h.secretName.Some?
  }

  class HeroStore {
    /** The `heroes` table, by primary key. */
    var heroes: map<int, Hero>
    /** The table's auto-increment counter: the id the next insert gets. */
    var nextId: int

    ghost predicate Valid()
      reads this
    {
      nextId >= 1 &&
      forall k :: k in heroes ==> 1 <= k < nextId && heroes[k].id == k && NotNullOk(heroes[k])
    }

    constructor ()
      ensures Valid() && heroes == map[] && nextId == 1
    {
      heroes := map[];
      nextId := 1;
    }

    /** POST /heroes/: insert a row under the next auto-increment id, which
        no stored hero has; the existing heroes are untouched. */
    method CreateHero(hero: HeroCreate) returns (r: Outcome<Hero>)
      requires Valid()
      modifies this
      ensures Valid()
      ensures old(nextId) !in old(heroes)
      ensures r == Ok(NewHero(old(nextId), hero))
      ensures heroes == old(heroes)[old(nextId) := r.value]
      ensures nextId == old(nextId) + 1
    {
      var dbHero := NewHero(nextId, hero);
      heroes := heroes[nextId := dbHero];
      nextId := nextId + 1;
      r := Ok(dbHero);
    }

    /** GET /heroes/: one page of the table, listed in the database's order. */
    method ReadHeroes(order: seq<int>, offset: int, limit: int) returns (r: Outcome<seq<Hero>>)
      requires IsEnumeration(order, heroes.Keys)
      ensures r == Page(RowsInOrder(heroes, order), offset, limit)
      ensures r.Ok? <==> 0 <= offset && 0 <= limit <= MaxLimit
      ensures r.Ok? ==> |r.value| <= limit
      ensures r.Ok? ==> forall i :: 0 <= i < |r.value| ==> r.value[i] in heroes.Values
    {
      var rows := RowsInOrder(heroes, order);
      r := Page(rows, offset, limit);
      PageOfTable(heroes, order, offset, limit);
    }

    /** GET /heroes/{id}: the stored row, or NotFound. */
    method ReadHero(heroId: int) returns (r: Outcome<Hero>)
      ensures heroId in heroes <==> r.Ok?
      ensures heroId in heroes ==> r.value == heroes[heroId]
      ensures heroId !in heroes ==> r == NotFound
    {
      if heroId !in heroes {
        return NotFound;
      }
      r := Ok(heroes[heroId]);
    }

    /** PATCH /heroes/{id}: merge the sent fields into the stored row and
        commit. A null name or secret name breaks a NOT NULL column: the
        commit raises, nothing is written, and the error is not handled. */
    method UpdateHero(heroId: int, patch: HeroUpdate) returns (r: Outcome<Hero>)
      requires Valid()
      modifies this
      ensures Valid()
      ensures r.Ok? || r.NotFound? || r.DbError?
      ensures r.NotFound? <==> heroId !in old(heroes)
      ensures r.DbError? <==> heroId in old(heroes) && !NotNullOk(Merge(old(heroes)[heroId], patch))
      ensures !r.Ok? ==> heroes == old(heroes)
      ensures r.Ok? ==>
        heroId in old(heroes) && r.value == Merge(old(heroes)[heroId], patch) &&
        heroes == old(heroes)[heroId := r.value]
      ensures r.Ok? ==> r.value.id == heroId
      ensures heroes.Keys == old(heroes).Keys && nextId == old(nextId)
    {
      if heroId !in heroes {
        return NotFound;
      }
      var heroDb := Merge(heroes[heroId], patch);
      if !NotNullOk(heroDb) {
        return DbError;
      }
      heroes := heroes[heroId := heroDb];
      r := Ok(heroDb);
    }

    /** DELETE /heroes/{id}: remove exactly that row, or NotFound. The
        counter is not rewound, so the id is never handed out again. */
    method DeleteHero(heroId: int) returns (r: Outcome<bool>)
      requires Valid()
      modifies this
      ensures Valid()
      ensures heroId !in old(heroes) ==> r == NotFound && heroes == old(heroes)
      ensures heroId in old(heroes) ==> r == Ok(true) && heroes == old(heroes) - {heroId}
      ensures nextId == old(nextId)
    {
      if heroId !in heroes {
        return NotFound;
      }
      heroes := heroes - {heroId};
      r := Ok(true);
    }
  }

  /** Patching only the age of a stored hero changes its age and leaves its
      name, secret name and id as they were. */
  method PatchAge(store: HeroStore, heroId: int, age: Option<int>) returns (r: Outcome<Hero>)
    requires store.Valid() && heroId in store.heroes
    modifies store
    ensures r == Ok(old(store.heroes)[heroId].(age := age))
    ensures store.heroes == old(store.heroes)[heroId := r.value]
  {
    r := store.UpdateHero(heroId, HeroUpdate(None, Some(age), None));
  }

  /** Deleting the same hero twice: the second call answers NotFound. */
  method DeleteTwice(store: HeroStore, heroId: int) returns (r1: Outcome<bool>, r2: Outcome<bool>)
    requires store.Valid() && heroId in store.heroes
    modifies store
    ensures r1 == Ok(true) && r2 == NotFound
    ensures store.heroes == old(store.heroes) - {heroId}
  {
    r1 := store.DeleteHero(heroId);
    r2 := store.DeleteHero(heroId);
  }

  /** A created hero can be read back under the id it was given. */
  method CreateThenRead(store: HeroStore, hero: HeroCreate) returns (created: Outcome<Hero>, read: Outcome<Hero>)
    requires store.Valid()
    modifies store
    ensures created.Ok? && read == created
    ensures read.value.name == Some(hero.name) && read.value.age == hero.age
    ensures read.value.secretName == Some(hero.secretName)
  {
    created := store.CreateHero(hero);
    read := store.ReadHero(created.value.id);
  }
}
