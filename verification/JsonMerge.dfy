/** Two implementations of a JSON merge patch, one that copies and one that
    updates the base in place, and what RFC 7396 prescribes. */
module JsonMerge {
  import opened Wrappers

  datatype Json =
    | Null
    | Bool(b: bool)
    | Number(n: int)
    | Text(s: string)
    | Array(items: seq<Json>)
    | Object(fields: map<string, Json>)

  // ---- section 2 of RFC 7396 ----

  function FieldsOf(target: Json): map<string, Json> {
    if target.Object? then target.fields else map[]
  }

  /** A name and value of the patch: null removes, anything else merges into the
      value there, which counts as absent, like null, if there is none. */
  function Applied(fields: map<string, Json>, key: string, value: Json): map<string, Json>
    decreases value, 1
  {
    if value.Null? then fields - {key}
    else fields[key := MergePatch(if key in fields then fields[key] else Null, value)]
  }

  /** The result pairs by pairs: a pair of the target stays if the patch does not
      name it, a pair of the patch is merged unless it removes. */
  function MergePatch(target: Json, patch: Json): Json
    decreases patch, 0
  {
    if !patch.Object? then patch
    else
      var had := FieldsOf(target);
      Object(map k | k in had.Keys + patch.fields.Keys && !(k in patch.fields && patch.fields[k].Null?) ::
               if k !in patch.fields then had[k]
               else MergePatch(if k in had then had[k] else Null, patch.fields[k]))
  }

  // ---- the merge at every path ----

  /** The value at a path of names. */
  function At(j: Json, path: seq<string>): Option<Json> {
    if path == [] then Some(j)
    else if j.Object? && path[0] in j.fields then At(j.fields[path[0]], path[1..])
    else None
  }

  /** The patch has something that is no object at the first `n` names. */
  predicate Settles(patch: Json, path: seq<string>, n: nat)
    requires n <= |path|
  {
    At(patch, path[..n]).Some? && !At(patch, path[..n]).value.Object?
  }

  /** What the result has at a path: the patch's value where the patch has one
      that is no object, nothing below it and nothing where it is a null member;
      an object where the patch has an object; and the target's value where the
      patch names nothing on the path. */
  ghost predicate FollowsPath(target: Json, patch: Json, result: Json, path: seq<string>) {
    && (forall n | 0 <= n <= |path| && Settles(patch, path, n) ::
          At(result, path) ==
          if n == |path| && (n == 0 || At(patch, path) != Some(Null)) then At(patch, path) else None)
    && (At(patch, path).Some? && At(patch, path).value.Object? ==>
          At(result, path).Some? && At(result, path).value.Object?)
    && (At(patch, path).None? && (forall n | 0 <= n <= |path| :: !Settles(patch, path, n)) ==>
          At(result, path) == At(target, path))
  }

  lemma SettlesBelow(patch: Json, path: seq<string>, n: nat)
    requires patch.Object? && 0 < n <= |path|
    ensures Settles(patch, path, n) <==>
              path[0] in patch.fields && Settles(patch.fields[path[0]], path[1..], n - 1)
  {
    assert path[..n][1..] == path[1..][..n - 1];
  }

  lemma {:induction false} MergeFollowsPaths(target: Json, patch: Json, path: seq<string>)
    ensures FollowsPath(target, patch, MergePatch(target, patch), path)
    decreases |path|
  {
    var result := MergePatch(target, patch);
    if path == [] {
      assert path[..0] == [];
    } else if !patch.Object? {
      NothingBelow(patch, path);
      assert Settles(patch, path, 0);
    } else {
      var had, name, rest := FieldsOf(target), path[0], path[1..];
      assert !Settles(patch, path, 0) by { assert path[..0] == []; }
      forall n | 0 < n <= |path|
        ensures Settles(patch, path, n) <==> name in patch.fields && Settles(patch.fields[name], rest, n - 1)
      {
        SettlesBelow(patch, path, n);
      }
      if name in patch.fields {
        var prior := if name in had then had[name] else Null;
        MergeFollowsPaths(prior, patch.fields[name], rest);
        NamedByPatch(target, patch, path, prior);
      }
    }
  }

  lemma MergeFollows(target: Json, patch: Json)
    ensures forall path :: FollowsPath(target, patch, MergePatch(target, patch), path)
  {
    forall path
      ensures FollowsPath(target, patch, MergePatch(target, patch), path)
    {
      MergeFollowsPaths(target, patch, path);
    }
  }

  lemma NamedByPatch(target: Json, patch: Json, path: seq<string>, prior: Json)
    requires patch.Object? && path != [] && path[0] in patch.fields
    requires prior == if path[0] in FieldsOf(target) then FieldsOf(target)[path[0]] else Null
    requires var p := patch.fields[path[0]]; FollowsPath(prior, p, MergePatch(prior, p), path[1..])
    ensures FollowsPath(target, patch, MergePatch(target, patch), path)
  {
    var p, rest, result := patch.fields[path[0]], path[1..], MergePatch(target, patch);
    assert !Settles(patch, path, 0) by { assert path[..0] == []; }
    forall n | 0 < n <= |path| && Settles(patch, path, n)
      ensures At(result, path) == if n == |path| && At(patch, path) != Some(Null) then At(patch, path) else None
    {
      SettlesBelow(patch, path, n);
      if p.Null? && n > 1 { NothingBelow(p, rest); }
    }
    if At(patch, path).None? && forall n | 0 <= n <= |path| :: !Settles(patch, path, n) {
      forall n | 0 <= n <= |rest|
        ensures !Settles(p, rest, n)
      {
        SettlesBelow(patch, path, n + 1);
      }
      assert rest != [];
    }
    if p.Null? { SettlesBelow(patch, path, 1); NullSettles(p, rest); }
  }

  lemma NullSettles(p: Json, rest: seq<string>)
    requires p.Null?
    ensures Settles(p, rest, 0)
  {
    assert rest[..0] == [];
  }

  lemma NothingBelow(patch: Json, path: seq<string>)
    requires !patch.Object? && path != []
    ensures At(patch, path) == None
    ensures forall n | 0 <= n <= |path| :: Settles(patch, path, n) <==> n == 0
  {
    assert path[..0] == [];
    forall n | 0 < n <= |path|
      ensures !Settles(patch, path, n)
    {
      assert path[..n] != [];
    }
  }

  // ---- the copying implementation ----

  /** The names of the patch are visited in any order. */
  method Merged(base: Json, patch: Json) returns (result: Json)
    ensures result == MergePatch(base, patch)
    ensures forall path :: FollowsPath(base, patch, result, path)
    decreases patch
  {
    MergeFollows(base, patch);
    hide FollowsPath;
    if !patch.Object? {
      return patch;
    }
    hide MergePatch, Partly;
    PartlyBegins(base, patch);
    PartlyEnds(base, patch);
    var fields := FieldsOf(base);
    var left := patch.fields.Keys;
    while left != {}
      invariant left <= patch.fields.Keys
      invariant fields == Partly(base, patch, left)
      decreases left
    {
      var key :| key in left;
      var value := patch.fields[key];
      PartlyStep(base, patch, left, key);
      if value.Null? {
        fields := fields - {key};
      } else {
        var merged := Merged(if key in fields then fields[key] else Null, value);
        fields := fields[key := merged];
      }
      left := left - {key};
    }
    return Object(fields);
  }

  /** The target after the names of the patch outside `left` were applied. */
  ghost function Partly(target: Json, patch: Json, left: set<string>): map<string, Json>
    requires patch.Object?
  {
    var had := FieldsOf(target);
    map k | k in had.Keys + patch.fields.Keys && (k in left ==> k in had)
            && !(k !in left && k in patch.fields && patch.fields[k].Null?) ::
      if k in left || k !in patch.fields then had[k]
      else MergePatch(if k in had then had[k] else Null, patch.fields[k])
  }

  lemma PartlyBegins(target: Json, patch: Json)
    requires patch.Object?
    ensures Partly(target, patch, patch.fields.Keys) == FieldsOf(target)
  {
    hide MergePatch;
  }

  lemma PartlyEnds(target: Json, patch: Json)
    requires patch.Object?
    ensures Object(Partly(target, patch, {})) == MergePatch(target, patch)
  {
    var all, merged := Partly(target, patch, {}), MergePatch(target, patch).fields;
    forall k
      ensures k in all <==> k in merged
      ensures k in all ==> all[k] == merged[k]
    {}
    assert all == merged;
  }

  lemma PartlyStep(target: Json, patch: Json, left: set<string>, key: string)
    requires patch.Object? && left <= patch.fields.Keys && key in left
    ensures Partly(target, patch, left - {key}) == Applied(Partly(target, patch, left), key, patch.fields[key])
  {
    var before, after := Partly(target, patch, left), Partly(target, patch, left - {key});
    assert key in before <==> key in FieldsOf(target);
    assert after.Keys == Applied(before, key, patch.fields[key]).Keys;
  }

  // ---- the implementation in place ----

  /** A place that holds a JSON value; the members of an object are places. */
  class Place {
    var value: Json

    constructor (value: Json)
      ensures this.value == value
    {
      this.value := value;
    }

    /** The base is made an object if it is none; then every name of the patch
        is removed, or inserted as null if absent and merged in its own place. */
    method Merge(patch: Json)
      modifies this
      ensures value == MergePatch(old(value), patch)
      ensures forall path :: FollowsPath(old(value), patch, value, path)
      decreases patch
    {
      MergeFollows(value, patch);
      hide FollowsPath;
      if !patch.Object? {
        value := patch;
        return;
      }
      hide MergePatch, Partly;
      PartlyBegins(value, patch);
      PartlyEnds(value, patch);
      if !value.Object? {
        value := Object(map[]);
      }
      var left := patch.fields.Keys;
      while left != {}
        invariant left <= patch.fields.Keys
        invariant value == Object(Partly(old(value), patch, left))
        decreases left
      {
        var key :| key in left;
        PartlyStep(old(value), patch, left, key);
        if patch.fields[key].Null? {
          value := Object(value.fields - {key});
        } else {
          var entry := new Place(if key in value.fields then value.fields[key] else Null);
          entry.Merge(patch.fields[key]);
          value := Object(value.fields[key := entry.value]);
        }
        left := left - {key};
      }
    }
  }

  // ---- laws ----

  /** Applying a patch a second time changes nothing. */
  lemma {:induction false} MergeTwiceIsOnce(target: Json, patch: Json)
    ensures MergePatch(MergePatch(target, patch), patch) == MergePatch(target, patch)
    decreases patch
  {
    if patch.Object? {
      var once := MergePatch(target, patch);
      var twice := MergePatch(once, patch);
      forall k | k in patch.fields && !patch.fields[k].Null?
        ensures k in once.fields && twice.fields[k] == once.fields[k]
      {
        var had := FieldsOf(target);
        MergeTwiceIsOnce(if k in had then had[k] else Null, patch.fields[k]);
      }
      assert twice.fields == once.fields;
    }
  }

  /** Section 2 of RFC 7396 as it is written there: the pairs of the patch one
      after the other. */
  function InOrder(fields: map<string, Json>, patch: Json, names: seq<string>): map<string, Json>
    requires patch.Object? && forall n | n in names :: n in patch.fields
    decreases |names|
  {
    if names == [] then fields
    else
      var last := names[|names| - 1];
      Applied(InOrder(fields, patch, names[..|names| - 1]), last, patch.fields[last])
  }

  predicate Distinct(names: seq<string>) {
    forall i, j | 0 <= i < j < |names| :: names[i] != names[j]
  }

  /** Every order of the names gives the same result, the one of `MergePatch`. */
  lemma OrderDoesNotMatter(target: Json, patch: Json, names: seq<string>)
    requires patch.Object? && Distinct(names) && forall n :: n in names <==> n in patch.fields
    ensures MergePatch(target, patch) == Object(InOrder(FieldsOf(target), patch, names))
  {
    hide MergePatch, Partly, InOrder;
    InOrderIsPartly(target, patch, names);
    PartlyEnds(target, patch);
    assert patch.fields.Keys - (set n | n in names) == {};
  }

  lemma {:induction false} InOrderIsPartly(target: Json, patch: Json, names: seq<string>)
    requires patch.Object? && Distinct(names) && forall n | n in names :: n in patch.fields
    ensures InOrder(FieldsOf(target), patch, names) == Partly(target, patch, patch.fields.Keys - set n | n in names)
    decreases |names|
  {
    var all := patch.fields.Keys;
    if names == [] {
      assert all - (set n | n in names) == all;
      PartlyBegins(target, patch);
    } else {
      var front, last := names[..|names| - 1], names[|names| - 1];
      var before := all - set n | n in front;
      InOrderIsPartly(target, patch, front);
      assert last !in front;
      PartlyStep(target, patch, before, last);
      assert all - (set n | n in names) == before - {last};
    }
  }

  /** A merge writes no null: without nulls in the target there are none in the
      result, whatever the patch removes. */
  ghost predicate NoNulls(j: Json) {
    !j.Null? && (j.Object? ==> forall k | k in j.fields :: NoNulls(j.fields[k]))
  }

  lemma {:induction false} MergeWritesNoNull(target: Json, patch: Json)
    requires !patch.Null? && (target.Object? ==> NoNulls(target))
    ensures NoNulls(MergePatch(target, patch))
    decreases patch
  {
    if patch.Object? {
      var had, result := FieldsOf(target), MergePatch(target, patch);
      forall k | k in result.fields
        ensures NoNulls(result.fields[k])
      {
        if k in patch.fields {
          MergeWritesNoNull(if k in had then had[k] else Null, patch.fields[k]);
        }
      }
    }
  }
}
