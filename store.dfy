/**
 * The in-memory Pokémon store of own_poke.py: a list of records, each with a
 * name and three stats, with lookup, add, rename and delete operations.
 */
module PokeStore {
  import opened Wrappers
  import opened Http

  /** One stored record: `{'name': ..., 'hp': ..., 'attack': ..., 'defense': ...}`. */
  datatype Poke = Poke(name: string, hp: int, attack: int, defense: int)

  /** The JSON body of an add request; an absent key is `None`. */
  datatype NewPoke = NewPoke(name: Option<string>, hp: Option<int>, attack: Option<int>, defense: Option<int>)

  /** The JSON body of a reply. */
  datatype Body =
    | Pokes(pokes: seq<Poke>)   // {'pokes': data}
    | Found(poke: seq<Poke>)    // {'poke': poke_find}
    | Error(error: string)      // {'error': ...}

  datatype Reply = Reply(status: int, body: Body)

  /** `[poke for poke in data if poke['name'] == name]`: the records with that name, in list order. */
  function Named(data: seq<Poke>, name: string): (found: seq<Poke>)
    ensures |found| <= |data|
    ensures forall p :: p in found <==> p in data && p.name == name
    ensures found == [] <==> forall i | 0 <= i < |data| :: data[i].name != name
  {
    if data == [] then []
    else if data[0].name == name then [data[0]] + Named(data[1..], name)
    else Named(data[1..], name)
  }

  /**
   * The lookup keeps list order: a record added at the end of the list comes
   * last in the lookup when it has the name, and changes nothing otherwise.
   */
  lemma {:induction false} NamedAppend(data: seq<Poke>, p: Poke, name: string)
    ensures Named(data + [p], name) == Named(data, name) + (if p.name == name then [p] else [])
  {
    if data != [] {
      assert (data + [p])[1..] == data[1..] + [p];
      NamedAppend(data[1..], p, name);
    }
  }

  /** The lookup holds each record with the name as many times as the list does, and no other record. */
  lemma {:induction false} NamedCount(data: seq<Poke>, name: string, q: Poke)
    ensures multiset(Named(data, name))[q] == if q.name == name then multiset(data)[q] else 0
  {
    if data != [] {
      var rest := data[1..];
      NamedCount(rest, name, q);
      assert multiset(data) == multiset{data[0]} + multiset(rest) by {
        assert data == [data[0]] + rest;
      }
      if data[0].name == name {
        assert multiset(Named(data, name)) == multiset{data[0]} + multiset(Named(rest, name)) by {
          assert Named(data, name) == [data[0]] + Named(rest, name);
        }
      }
    }
  }

  /** The position of the first record with that name, or `|data|` when there is none. */
  function FirstIndex(data: seq<Poke>, name: string): (i: nat)
    ensures i <= |data|
    ensures forall j | 0 <= j < i :: data[j].name != name
    ensures i < |data| ==> data[i].name == name
  {
    if data == [] then 0
    else if data[0].name == name then 0
    else 1 + FirstIndex(data[1..], name)
  }

  /** The first record of a lookup is the record at the first position with that name. */
  lemma {:induction false} FirstOfNamed(data: seq<Poke>, name: string)
    ensures Named(data, name) != [] ==> FirstIndex(data, name) < |data| && Named(data, name)[0] == data[FirstIndex(data, name)]
  {
    if data != [] && data[0].name != name {
      FirstOfNamed(data[1..], name);
    }
  }

  /** `list.remove(p)`: the list without its first element equal to `p`. */
  function RemoveFirst(data: seq<Poke>, p: Poke): (rest: seq<Poke>)
    requires p in data
    ensures |rest| == |data| - 1
  {
    if data[0] == p then data[1..]
    else
      assert p in data[1..] by {
        var k :| 0 <= k < |data| && data[k] == p;
        assert data[1..][k - 1] == p;
      }
      [data[0]] + RemoveFirst(data[1..], p)
  }

  /**
   * When `k` is the first position holding `p`, removing `p` deletes
   * position `k` and keeps the others in order.
   */
  lemma {:induction false} RemoveFirstAt(data: seq<Poke>, p: Poke, k: nat)
    requires k < |data| && data[k] == p && p !in data[..k]
    ensures RemoveFirst(data, p) == data[..k] + data[k + 1..]
  {
    if k > 0 {
      var tail := data[1..];
      assert data[0] in data[..k];
      assert tail[..k - 1] == data[1..k];
      RemoveFirstAt(tail, p, k - 1);
      assert data[..k] == [data[0]] + tail[..k - 1];
      assert data[k + 1..] == tail[k..];
    }
  }

  /**
   * Removing the first record with a name by value removes exactly the record
   * at its first position: no earlier record can be equal to it.
   */
  lemma RemoveFirstNamed(data: seq<Poke>, name: string)
    requires FirstIndex(data, name) < |data|
    ensures var i := FirstIndex(data, name);
            RemoveFirst(data, data[i]) == data[..i] + data[i + 1..]
  {
    var i := FirstIndex(data, name);
    assert data[i] !in data[..i];
    RemoveFirstAt(data, data[i], i);
  }

  /** Whether `name` is among the records' names: `name in [poke['name'] for poke in data]`. */
  predicate HasName(data: seq<Poke>, name: string)
  {
    exists i | 0 <= i < |data| :: data[i].name == name
  }

  /** No two records share a name. */
  predicate Unique(data: seq<Poke>)
  {
    forall i, j | 0 <= i < j < |data| :: data[i].name != data[j].name
  }

  /** Appending a record whose name is new keeps names unique. */
  lemma AppendKeepsUnique(data: seq<Poke>, p: Poke)
    requires Unique(data) && !HasName(data, p.name)
    ensures Unique(data + [p])
  {
    forall i, j | 0 <= i < j < |data + [p]|
      ensures (data + [p])[i].name != (data + [p])[j].name
    {
      if j == |data| {
        assert (data + [p])[i] == data[i];
      }
    }
  }

  /** Deleting a record keeps names unique. */
  lemma DeleteKeepsUnique(data: seq<Poke>, k: nat)
    requires Unique(data) && k < |data|
    ensures Unique(data[..k] + data[k + 1..])
  {
    var rest := data[..k] + data[k + 1..];
    forall i, j | 0 <= i < j < |rest|
      ensures rest[i].name != rest[j].name
    {
      var i', j' := if i < k then i else i + 1, if j < k then j else j + 1;
      assert rest[i] == data[i'] && rest[j] == data[j'];
    }
  }

  /**
   * Renaming the record at `k` keeps names unique exactly when no other
   * record already carries the new name: renaming never checks for that.
   */
  lemma RenameUnique(data: seq<Poke>, k: nat, newName: string)
    requires Unique(data) && k < |data|
    ensures Unique(data[k := data[k].(name := newName)])
            <==> forall j | 0 <= j < |data| && j != k :: data[j].name != newName
  {
    var renamed := data[k := data[k].(name := newName)];
    if !(forall j | 0 <= j < |data| && j != k :: data[j].name != newName) {
      var j :| 0 <= j < |data| && j != k && data[j].name == newName;
      if j < k {
        assert renamed[j].name == renamed[k].name;
      } else {
        assert renamed[k].name == renamed[j].name;
      }
    }
  }

  /** Renaming "a" to "b" in a store holding "a" and "b" leaves two records named "b". */
  lemma RenameBreaksUnique()
    ensures var data := [Poke("a", 1, 1, 1), Poke("b", 2, 2, 2)];
            && Unique(data)
            && FirstIndex(data, "a") == 0
            && !Unique(data[0 := data[0].(name := "b")])
  {
    var data := [Poke("a", 1, 1, 1), Poke("b", 2, 2, 2)];
    var renamed := data[0 := data[0].(name := "b")];
    assert renamed[0].name == renamed[1].name;
  }

  /** The module-level `data` list of the service. */
  class Store {
    var data: seq<Poke>

    /** The list loaded from the JSON file at start-up. */
    constructor (initial: seq<Poke>)
      ensures data == initial
    {
      data := initial;
    }

    /** `GET /pokemons/<name>`: every record with that name, or 400 when there is none. */
    method ReturnOne(name: string) returns (reply: Reply)
      ensures reply.status == BAD_REQUEST <==> !HasName(data, name)
      ensures reply.status == BAD_REQUEST ==> reply.body == Error("pokemon not found")
      ensures reply.status != BAD_REQUEST ==>
                && reply.status == OK && reply.body.Found?
                && (forall p :: p in reply.body.poke <==> p in data && p.name == name)
                && reply.body.poke == Named(data, name)
                && reply.body.poke[0] == data[FirstIndex(data, name)]
    {
      var pokeFind := Named(data, name);
      if pokeFind == [] {
        return Reply(BAD_REQUEST, Error("pokemon not found"));
      }
      FirstOfNamed(data, name);
      return Reply(OK, Found(pokeFind));
    }

    /**
     * `POST /pokemons`: rejects a request missing any of the four keys, then
     * one whose name is taken; otherwise appends the record and answers 201
     * with the whole list.
     */
    method AddOne(rq: NewPoke) returns (reply: Reply)
      modifies this
      ensures (rq.name.None? || rq.hp.None? || rq.attack.None? || rq.defense.None?) ==>
                reply == Reply(BAD_REQUEST, Error("Missing data")) && data == old(data)
      ensures (rq.name.Some? && rq.hp.Some? && rq.attack.Some? && rq.defense.Some?) ==>
                if HasName(old(data), rq.name.value) then
                  reply == Reply(BAD_REQUEST, Error("pokemon already here")) && data == old(data)
                else
                  && data == old(data) + [Poke(rq.name.value, rq.hp.value, rq.attack.value, rq.defense.value)]
                  && reply == Reply(CREATED, Pokes(data))
      ensures Unique(old(data)) ==> Unique(data)
    {
      if rq.name.None? || rq.hp.None? || rq.attack.None? || rq.defense.None? {
        return Reply(BAD_REQUEST, Error("Missing data"));
      }
      if HasName(data, rq.name.value) {
        return Reply(BAD_REQUEST, Error("pokemon already here"));
      }
      var poke := Poke(rq.name.value, rq.hp.value, rq.attack.value, rq.defense.value);
      if Unique(data) {
        AppendKeepsUnique(data, poke);
      }
      data := data + [poke];
      return Reply(CREATED, Pokes(data));
    }

    /**
     * `PUT /pokemons/<oldname>/<newname>`: renames the first record named
     * `oldname`, in place, and changes nothing else; 400 when there is none.
     */
    method EditOne(oldName: string, newName: string) returns (reply: Reply)
      modifies this
      ensures !HasName(old(data), oldName) ==> reply == Reply(BAD_REQUEST, Error("pokemon not found")) && data == old(data)
      ensures HasName(old(data), oldName) ==>
                var k := FirstIndex(old(data), oldName);
                && |data| == |old(data)|
                && data[k] == old(data)[k].(name := newName)
                && (forall j | 0 <= j < |data| && j != k :: data[j] == old(data)[j])
                && reply == Reply(OK, Pokes(data))
    {
      var pokeFind := Named(data, oldName);
      if pokeFind == [] {
        return Reply(BAD_REQUEST, Error("pokemon not found"));
      }
      var k := FirstIndex(data, oldName);
      data := data[k := data[k].(name := newName)];
      return Reply(OK, Pokes(data));
    }

    /**
     * `DELETE /pokemons/<name>`: deletes the first record with that name,
     * keeping the others in order; 400 when there is none.
     */
    method RemoveOne(name: string) returns (reply: Reply)
      modifies this
      ensures !HasName(old(data), name) ==> reply == Reply(BAD_REQUEST, Error("pokemon not found")) && data == old(data)
      ensures HasName(old(data), name) ==>
                var k := FirstIndex(old(data), name);
                && data == old(data)[..k] + old(data)[k + 1..]
                && reply == Reply(OK, Pokes(data))
      ensures Unique(old(data)) ==> Unique(data)
    {
      var pokeFind := Named(data, name);
      if pokeFind == [] {
        return Reply(BAD_REQUEST, Error("pokemon not found"));
      }
      ghost var before, k := data, FirstIndex(data, name);
      FirstOfNamed(data, name);
      RemoveFirstNamed(data, name);
      assert pokeFind[0] == before[k];
      data := RemoveFirst(data, pokeFind[0]);
      assert data == before[..k] + before[k + 1..];
      if Unique(before) {
        DeleteKeepsUnique(before, k);
      }
      return Reply(OK, Pokes(data));
    }
  }
}
