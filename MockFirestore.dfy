/**
 * The offline document store of config/firebase.js: `deepMerge`, the mock
 * `db.collection(name).doc(id).get/set/update` and collection `get()`, and `normalizePrivateKey`.
 */
module MockFirestore {
  import opened Wrappers
  import opened Json

  /** A stored document: a plain object. */
  type Doc = map<string, Json>

  // ---------------------------------------------------------------- deepMerge

  /**
   * What `deepMerge` leaves under a key whose source value is `src`, when the target held `prior`
   * there (`None`: no such key). A plain object merges into the target's value, which is first
   * replaced by `{}` unless it is a truthy object; any other value overwrites.
   */
  function MergedValue(prior: Option<Json>, src: Json): Json
    decreases src, 1
  {
    // `src && typeof src === "object" && !Array.isArray(src)` holds exactly of plain objects
    if src.JObj? then
      var base := if Present(prior) && IsObjectType(prior.value) then prior.value else JObj(map[]);
      if base.JObj? then JObj(MergedOn(base.fields, src, src.fields.Keys)) else base
    else src
  }

  /** The target after `deepMerge` has handled the source keys in `done`. */
  function MergedOn(target: Doc, source: Json, done: set<string>): (r: Doc)
    requires source.JObj? && done <= source.fields.Keys
    ensures r.Keys == target.Keys + done
    decreases source, 0
  {
    map k | k in target.Keys + done ::
      if k in done then MergedValue(if k in target then Some(target[k]) else None, source.fields[k])
      else target[k]
  }

  /** `deepMerge(target, source)`. */
  function Merged(target: Doc, source: Doc): Doc {
    MergedOn(target, JObj(source), source.Keys)
  }

  /** `deepMerge`, key by key, recursing into plain-object values. */
  method DeepMerge(target: Doc, source: Json) returns (merged: Doc)
    requires source.JObj?
    ensures merged == MergedOn(target, source, source.fields.Keys)
    decreases source, 0
  {
    merged := target;
    var done: set<string> := {};
    while done != source.fields.Keys
      invariant done <= source.fields.Keys
      invariant merged == MergedOn(target, source, done)
      decreases source.fields.Keys - done
    {
      assert !(source.fields.Keys <= done);
      var key :| key in source.fields.Keys && key !in done;
      MergedOnStep(target, source, done, key);
      var next := MergeValue(if key in merged then Some(merged[key]) else None, source.fields[key]);
      merged := merged[key := next];
      done := done + {key};
    }
  }

  /** The body of `deepMerge` for one key whose target value is `prior` and whose source value is `src`. */
  method MergeValue(prior: Option<Json>, src: Json) returns (next: Json)
    ensures next == MergedValue(prior, src)
    decreases src, 1
  {
    next := src;
    if src.JObj? {
      // `if (!target[key] || typeof target[key] !== "object") target[key] = {}`, then recurse
      next := if Present(prior) && IsObjectType(prior.value) then prior.value else JObj(map[]);
      if next.JObj? {
        var fields := DeepMerge(next.fields, src);
        next := JObj(fields);
      }
    }
  }

  /** Handling one more key updates that key alone, starting from the target's own value. */
  lemma MergedOnStep(target: Doc, source: Json, done: set<string>, key: string)
    requires source.JObj? && done <= source.fields.Keys && key in source.fields && key !in done
    ensures var before := MergedOn(target, source, done);
      && (key in before <==> key in target)
      && (key in before ==> before[key] == target[key])
      && MergedOn(target, source, done + {key})
         == before[key := MergedValue(if key in target then Some(target[key]) else None, source.fields[key])]
  {
  }

  /**
   * The merge rules: a key the source lacks keeps the target's value; a source value that is not
   * a plain object (an array, a primitive, `null`) replaces the target's value, so arrays are
   * replaced and never concatenated; a plain-object value is merged into the target's value when
   * that is an object and into `{}` when it is missing or not an object.
   */
  lemma MergedRules(target: Doc, source: Doc)
    ensures Merged(target, source).Keys == target.Keys + source.Keys
    ensures forall k :: k in target && k !in source ==> Merged(target, source)[k] == target[k]
    ensures forall k :: k in source && !source[k].JObj? ==> Merged(target, source)[k] == source[k]
    ensures forall k :: k in source && source[k].JObj? && (k !in target || !Truthy(target[k]) || !IsObjectType(target[k])) ==>
      Merged(target, source)[k] == JObj(Merged(map[], source[k].fields))
    ensures forall k :: k in source && source[k].JObj? && k in target && target[k].JObj? ==>
      Merged(target, source)[k] == JObj(Merged(target[k].fields, source[k].fields))
  {
    var r := Merged(target, source);
    forall k | k in source
      ensures r[k] == MergedValue(if k in target then Some(target[k]) else None, source[k])
    {
    }
    forall k | k in source && source[k].JObj?
      ensures JObj(source[k].fields) == source[k]
    {
    }
  }

  /** Merging the same source twice is the same as merging it once. */
  lemma MergedIdempotent(target: Doc, source: Doc)
    ensures Merged(Merged(target, source), source) == Merged(target, source)
  {
    MergedOnIdempotent(target, JObj(source));
  }

  lemma {:induction false} MergedOnIdempotent(target: Doc, source: Json)
    requires source.JObj?
    ensures var once := MergedOn(target, source, source.fields.Keys);
      MergedOn(once, source, source.fields.Keys) == once
    decreases source, 0
  {
    var once := MergedOn(target, source, source.fields.Keys);
    var twice := MergedOn(once, source, source.fields.Keys);
    forall k | k in source.fields
      ensures twice[k] == once[k]
    {
      MergedValueIdempotent(if k in target then Some(target[k]) else None, source.fields[k]);
    }
  }

  lemma {:induction false} MergedValueIdempotent(prior: Option<Json>, src: Json)
    ensures MergedValue(Some(MergedValue(prior, src)), src) == MergedValue(prior, src)
    decreases src, 1
  {
    if src.JObj? {
      var base := if Present(prior) && IsObjectType(prior.value) then prior.value else JObj(map[]);
      if base.JObj? {
        MergedOnIdempotent(base.fields, src);
      }
    }
  }

  /** Merging an empty source changes nothing. */
  lemma MergedEmpty(target: Doc)
    ensures Merged(target, map[]) == target
  {
  }

  // ---------------------------------------------------------------- the mock database

  /** `doc(id).get()`'s result: `{ id, exists, data() }` (`found` is `exists`), with `None` for `undefined`. */
  datatype Snapshot = Snapshot(id: string, found: bool, data: Option<Doc>)

  /** `docs` enumerates the collection `c`: one snapshot of each stored document, each id once, in some order. */
  predicate Lists(docs: seq<Snapshot>, c: map<string, Doc>) {
    && (forall i :: 0 <= i < |docs| ==> docs[i].id in c && docs[i] == Snapshot(docs[i].id, true, Some(c[docs[i].id])))
    && (forall id :: id in c ==> exists i :: 0 <= i < |docs| && docs[i].id == id)
    && (forall i, j :: 0 <= i < j < |docs| ==> docs[i].id != docs[j].id)
  }

  /** The `users` collection of a store (`db.collection('users')` starts it empty). */
  function Users(store: map<string, map<string, Doc>>): map<string, Doc> {
    if "users" in store then store["users"] else map[]
  }

  /** The `db` object of offline mode over its in-memory `store`. */
  class MockDb {
    /** `store`: collection name → document id → document. */
    var store: map<string, map<string, Doc>>

    /** A start without a data file: one empty `users` collection. */
    constructor()
      ensures store == map["users" := map[]]
    {
      store := map["users" := map[]];
    }

    /** `db.collection(name)` creates the collection on first access and changes nothing else. */
    method Collection(name: string)
      modifies this
      ensures store == if name in old(store) then old(store) else old(store)[name := map[]]
    {
      if name !in store {
        store := store[name := map[]];
      }
    }

    /** The stored document, if any (`store[name][id]`); `doc(...)` is only reached through `collection(name)`, which created the collection. */
    function Read(name: string, id: string): Option<Doc>
      requires name in store
      reads this
    {
      if id in store[name] then Some(store[name][id]) else None
    }

    /** `doc(id).get()`: `exists` is whether a document is stored, and `data()` is a copy of it. */
    method Get(name: string, id: string) returns (snap: Snapshot)
      requires name in store
      ensures snap.id == id && snap.found == Read(name, id).Some? && snap.data == Read(name, id)
    {
      var data := if id in store[name] then Some(store[name][id]) else None;
      snap := Snapshot(id, data.Some?, data);
    }

    /**
     * `doc(id).set(data, { merge })`: with `merge` and an existing document, the document is
     * deep-merged with `data`; otherwise it becomes a shallow copy of `data`. No other document
     * and no other collection changes.
     */
    method Set(name: string, id: string, data: Doc, merge: bool)
      requires name in store
      modifies this
      ensures name in store
      ensures Read(name, id) == Some(if merge && old(Read(name, id)).Some? then Merged(old(Read(name, id)).value, data) else data)
      ensures store == old(store)[name := store[name]]
      ensures store[name] == old(store)[name][id := Read(name, id).value]
    {
      var doc := data;
      if merge && id in store[name] {
        doc := DeepMerge(store[name][id], JObj(data));
      }
      store := store[name := store[name][id := doc]];
    }

    /**
     * `doc(id).update(data)`: an absent document is first created as `{}`, then `data` is
     * deep-merged into it, so the document exists afterwards. Nothing else changes.
     */
    method Update(name: string, id: string, data: Doc)
      requires name in store
      modifies this
      ensures name in store
      ensures Read(name, id) == Some(Merged(old(Read(name, id)).GetOr(map[]), data))
      ensures store == old(store)[name := store[name]]
      ensures store[name] == old(store)[name][id := Read(name, id).value]
    {
      var base := if id in store[name] then store[name][id] else map[];
      var doc := DeepMerge(base, JObj(data));
      store := store[name := store[name][id := doc]];
    }

    /** The collection's `get()`: one snapshot per stored document, each id once (`store[name] || {}` for a missing collection). */
    method List(name: string) returns (docs: seq<Snapshot>)
      ensures Lists(docs, if name in store then store[name] else map[])
    {
      var c := if name in store then store[name] else map[];
      docs := [];
      var left := c.Keys;
      while left != {}
        invariant left <= c.Keys
        invariant forall i :: 0 <= i < |docs| ==> docs[i].id in c.Keys - left && docs[i] == Snapshot(docs[i].id, true, Some(c[docs[i].id]))
        invariant forall id :: id in c.Keys - left ==> exists i :: 0 <= i < |docs| && docs[i].id == id
        invariant forall i, j :: 0 <= i < j < |docs| ==> docs[i].id != docs[j].id
        decreases left
      {
        var id :| id in left;
        var before := docs;
        docs := docs + [Snapshot(id, true, Some(c[id]))];
        forall x | x in c.Keys - (left - {id})
          ensures exists i :: 0 <= i < |docs| && docs[i].id == x
        {
          if x == id {
            assert docs[|before|].id == x;
          } else {
            assert x in c.Keys - left;
            var i :| 0 <= i < |before| && before[i].id == x;
            assert docs[i].id == x;
          }
        }
        left := left - {id};
      }
      assert forall id :: id in c ==> id in c.Keys - left;
    }
  }

  // ---------------------------------------------------------------- normalizePrivateKey

  /** A backslash followed by the letter `n` at `i`. */
  predicate EscapedNewlineAt(s: string, i: int) {
    0 <= i < |s| - 1 && s[i] == '\\' && s[i + 1] == 'n'
  }

  /** `pk.replace(/\\n/g, "\n")`: every backslash-`n` pair, scanned left to right, becomes a newline; an empty key is returned as is. */
  function NormalizePrivateKey(pk: string): (r: string)
    ensures |r| <= |pk|
    decreases |pk|
  {
    if |pk| < 2 then pk
    else if pk[0] == '\\' && pk[1] == 'n' then "\n" + NormalizePrivateKey(pk[2..])
    else [pk[0]] + NormalizePrivateKey(pk[1..])
  }

  /** Every newline written as backslash-`n`, the form a key takes inside an environment variable. */
  function EscapeNewlines(s: string): (r: string)
    ensures '\n' !in r
  {
    if s == [] then []
    else (if s[0] == '\n' then "\\n" else [s[0]]) + EscapeNewlines(s[1..])
  }

  /** No backslash-`n` pair survives: a replacement writes a newline, which cannot start a new pair. */
  lemma {:induction false} NormalizeLeavesNoEscape(pk: string)
    ensures forall i :: !EscapedNewlineAt(NormalizePrivateKey(pk), i)
    decreases |pk|
  {
    if |pk| >= 2 {
      var r := NormalizePrivateKey(pk);
      if pk[0] == '\\' && pk[1] == 'n' {
        NormalizeLeavesNoEscape(pk[2..]);
        var rest := NormalizePrivateKey(pk[2..]);
        forall i
          ensures !EscapedNewlineAt(r, i)
        {
          if 0 < i < |r| - 1 {
            assert r[i] == rest[i - 1] && r[i + 1] == rest[i];
            assert !EscapedNewlineAt(rest, i - 1);
          }
        }
      } else {
        NormalizeLeavesNoEscape(pk[1..]);
        var rest := NormalizePrivateKey(pk[1..]);
        forall i
          ensures !EscapedNewlineAt(r, i)
        {
          if i == 0 && |rest| > 0 && pk[0] == '\\' {
            NormalizeFirst(pk[1..]);
            assert r[1] == rest[0] != 'n';
          } else if 0 < i < |r| - 1 {
            assert r[i] == rest[i - 1] && r[i + 1] == rest[i];
            assert !EscapedNewlineAt(rest, i - 1);
          }
        }
      }
    }
  }

  /** The first character of the result is the first of the key, or a newline for a leading pair. */
  lemma NormalizeFirst(pk: string)
    requires pk != []
    ensures NormalizePrivateKey(pk) != []
    ensures NormalizePrivateKey(pk)[0] == if EscapedNewlineAt(pk, 0) then '\n' else pk[0]
  {
  }

  /** A key without backslash-`n` pairs is left unchanged, so normalising twice is normalising once. */
  lemma {:induction false} NormalizeWithoutEscape(pk: string)
    requires forall i :: !EscapedNewlineAt(pk, i)
    ensures NormalizePrivateKey(pk) == pk
    decreases |pk|
  {
    if |pk| >= 2 {
      assert !EscapedNewlineAt(pk, 0);
      forall i ensures !EscapedNewlineAt(pk[1..], i) {
        assert !EscapedNewlineAt(pk, i + 1);
      }
      NormalizeWithoutEscape(pk[1..]);
    }
  }

  lemma NormalizeIdempotent(pk: string)
    ensures NormalizePrivateKey(NormalizePrivateKey(pk)) == NormalizePrivateKey(pk)
  {
    NormalizeLeavesNoEscape(pk);
    NormalizeWithoutEscape(NormalizePrivateKey(pk));
  }

  /** A key whose newlines were written as backslash-`n` reads back as the key, provided it had no backslash-`n` of its own. */
  lemma {:induction false} NormalizeEscapeRoundTrip(s: string)
    requires forall i :: !EscapedNewlineAt(s, i)
    ensures NormalizePrivateKey(EscapeNewlines(s)) == s
    decreases |s|
  {
    if s != [] {
      forall i ensures !EscapedNewlineAt(s[1..], i) {
        assert !EscapedNewlineAt(s, i + 1);
      }
      NormalizeEscapeRoundTrip(s[1..]);
      var rest := EscapeNewlines(s[1..]);
      assert EscapeNewlines(s) == (if s[0] == '\n' then "\\n" else [s[0]]) + rest;
      if s[0] == '\n' {
        assert EscapeNewlines(s)[2..] == rest;
      } else if s[0] == '\\' && |rest| >= 1 {
        // the character after the backslash is not an `n`, and escaping starts a newline with a backslash
        assert !EscapedNewlineAt(s, 0);
        EscapeFirst(s[1..]);
        assert EscapeNewlines(s)[1..] == rest;
      } else {
        assert EscapeNewlines(s)[1..] == rest;
      }
    }
  }

  /** The first character of an escaped text: a backslash for a newline, otherwise the text's own. */
  lemma EscapeFirst(s: string)
    requires s != []
    ensures EscapeNewlines(s) != [] && EscapeNewlines(s)[0] == if s[0] == '\n' then '\\' else s[0]
  {
  }
}
