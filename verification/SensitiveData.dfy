/**
 The response filter: it copies every object of a JSON body without the sensitive keys, at every
 depth. Copying spreads a nested array into an object keyed by its indices; only an array that is
 the whole body stays one.
 */
module SensitiveData {
  import opened Options
  import opened Text

  datatype Json =
    | Scalar(value: string)
    | Object(fields: map<string, Json>)
    | Array(items: seq<Json>)

  /** The copy of one object or array, before anything is removed from it. */
  function Spread(data: Json): (copy: map<string, Json>)
    requires !data.Scalar?
    ensures forall key :: key in copy ==> copy[key] < data
  {
    match data
    case Object(fields) => fields
    case Array(items) => SpreadArray(items)
  }

  function Filter(data: Json, sensitive: set<string>): Json
    decreases data
  {
    if data.Scalar? then data
    else
      var copy := Spread(data);
      Object(map key | key in copy && key !in sensitive :: Filter(copy[key], sensitive))
  }

  /** What is found by following a path of keys, where arrays have their indices as keys. */
  function At(data: Json, path: seq<string>): Option<Json>
    decreases path
  {
    if path == [] then Some(data)
    else if data.Scalar? || path[0] !in Spread(data) then None
    else At(Spread(data)[path[0]], path[1..])
  }

  predicate Avoids(path: seq<string>, sensitive: set<string>) {
    forall i :: 0 <= i < |path| ==> path[i] !in sensitive
  }

  /**
   What a path leads to after filtering: nothing if a key of it is sensitive, and otherwise the
   filtered form of what it led to before.
   */
  lemma {:induction false} FilteredPaths(data: Json, sensitive: set<string>, path: seq<string>)
    ensures At(Filter(data, sensitive), path)
         == if !Avoids(path, sensitive) || At(data, path).None? then None
            else Some(Filter(At(data, path).value, sensitive))
    decreases path
  {
    if path != [] && !data.Scalar? {
      var copy := Spread(data);
      if path[0] in copy && path[0] !in sensitive {
        FilteredPaths(copy[path[0]], sensitive, path[1..]);
        assert Avoids(path, sensitive) <==> Avoids(path[1..], sensitive) by {
          if Avoids(path[1..], sensitive) {
            forall i | 0 <= i < |path| ensures path[i] !in sensitive {
              assert i > 0 ==> path[i] == path[1..][i - 1];
            }
          }
          if Avoids(path, sensitive) {
            forall i | 0 <= i < |path[1..]| ensures path[1..][i] !in sensitive {
              assert path[1..][i] == path[i + 1];
            }
          }
        }
      }
    }
  }

  /** Exactly the leaves reached by paths of non-sensitive keys are kept, unchanged and in place. */
  lemma KeepsExactlyTheOtherLeaves(data: Json, sensitive: set<string>, path: seq<string>, value: string)
    ensures At(Filter(data, sensitive), path) == Some(Scalar(value))
            <==> At(data, path) == Some(Scalar(value)) && Avoids(path, sensitive)
  {
    FilteredPaths(data, sensitive, path);
  }

  /** No path with a sensitive key leads anywhere after filtering. */
  lemma NoSensitiveKeyAtAnyDepth(data: Json, sensitive: set<string>, path: seq<string>)
    requires !Avoids(path, sensitive)
    ensures At(Filter(data, sensitive), path) == None
  {
    FilteredPaths(data, sensitive, path);
  }

  /** Filtering by a and then by b is filtering once by their union. */
  lemma {:induction false} FilterTwice(data: Json, a: set<string>, b: set<string>)
    ensures Filter(Filter(data, a), b) == Filter(data, a + b)
    decreases data
  {
    if !data.Scalar? {
      var copy := Spread(data);
      forall key | key in copy && key !in a ensures Filter(Filter(copy[key], a), b) == Filter(copy[key], a + b) {
        FilterTwice(copy[key], a, b);
      }
    }
  }

  lemma {:induction false} FilterIdempotent(data: Json, sensitive: set<string>)
    ensures Filter(Filter(data, sensitive), sensitive) == Filter(data, sensitive)
  {
    FilterTwice(data, sensitive, sensitive);
    assert sensitive + sensitive == sensitive;
  }

  predicate ArrayFree(data: Json) {
    match data
    case Scalar(_) => true
    case Object(fields) => forall key :: key in fields ==> ArrayFree(fields[key])
    case Array(_) => false
  }

  lemma {:induction false} NestedArraysBecomeObjects(data: Json, sensitive: set<string>)
    ensures ArrayFree(Filter(data, sensitive))
    decreases data
  {
    if !data.Scalar? {
      var copy := Spread(data);
      forall key | key in copy && key !in sensitive ensures ArrayFree(Filter(copy[key], sensitive)) {
        NestedArraysBecomeObjects(copy[key], sensitive);
      }
    }
  }

  /** Filtering changes nothing exactly when there is no array and no path with a sensitive key. */
  lemma {:induction false} UnchangedIff(data: Json, sensitive: set<string>)
    ensures Filter(data, sensitive) == data
            <==> ArrayFree(data) && forall path :: At(data, path).Some? ==> Avoids(path, sensitive)
    decreases data
  {
    if Filter(data, sensitive) == data {
      NestedArraysBecomeObjects(data, sensitive);
      forall path | At(data, path).Some? ensures Avoids(path, sensitive) {
        FilteredPaths(data, sensitive, path);
      }
    }
    if data.Object? && ArrayFree(data) && forall path :: At(data, path).Some? ==> Avoids(path, sensitive) {
      forall key | key in data.fields ensures key !in sensitive && Filter(data.fields[key], sensitive) == data.fields[key] {
        ChildPathsAvoid(data, sensitive, key);
        UnchangedIff(data.fields[key], sensitive);
      }
    }
  }

  lemma ChildPathsAvoid(data: Json, sensitive: set<string>, key: string)
    requires data.Object? && key in data.fields
    requires forall path :: At(data, path).Some? ==> Avoids(path, sensitive)
    ensures key !in sensitive
    ensures forall path :: At(data.fields[key], path).Some? ==> Avoids(path, sensitive)
  {
    assert At(data, [key]).Some? && [key][0] == key;
    forall path | At(data.fields[key], path).Some? ensures Avoids(path, sensitive) {
      assert ([key] + path)[1..] == path;
      assert At(data, [key] + path).Some?;
      forall i | 0 <= i < |path| ensures path[i] !in sensitive {
        assert ([key] + path)[i + 1] == path[i];
      }
    }
  }

  method DeleteFields(copy: map<string, Json>, sensitiveFields: seq<string>) returns (kept: map<string, Json>)
    ensures kept == map key | key in copy && key !in (set field | field in sensitiveFields) :: copy[key]
  {
    kept := copy;
    for i := 0 to |sensitiveFields|
      invariant kept == map key | key in copy && key !in sensitiveFields[..i] :: copy[key]
    {
      if sensitiveFields[i] in kept {
        kept := kept - {sensitiveFields[i]};
      }
    }
    assert sensitiveFields[..|sensitiveFields|] == sensitiveFields;
  }

  method FilterChildren(kept: map<string, Json>, sensitiveFields: seq<string>, ghost parent: Json)
    returns (done: map<string, Json>)
    requires forall key :: key in kept ==> kept[key] < parent
    ensures done == map key | key in kept :: Filter(kept[key], set field | field in sensitiveFields)
    decreases parent, 0
  {
    done := kept;
    var todo := kept.Keys;
    while todo != {}
      invariant todo <= kept.Keys
      invariant done == map key | key in kept ::
                  if key in todo then kept[key] else Filter(kept[key], set field | field in sensitiveFields)
      decreases todo
    {
      var key :| key in todo;
      if !done[key].Scalar? {
        var inner := FilterSensitiveData(kept[key], sensitiveFields);
        done := done[key := inner];
      }
      todo := todo - {key};
    }
  }

  /** filterSensitiveData: copy, delete the sensitive fields one by one, then descend into the rest. */
  method FilterSensitiveData(data: Json, sensitiveFields: seq<string>) returns (filtered: Json)
    ensures filtered == Filter(data, set field | field in sensitiveFields)
    decreases data, 1
  {
    if data.Scalar? {
      return data;
    }
    var kept := DeleteFields(Spread(data), sensitiveFields);
    var done := FilterChildren(kept, sensitiveFields, data);
    filtered := Object(done);
  }

  /** The json wrapper: an array body is filtered item by item and stays an array. */
  method FilterBody(body: Json, sensitiveFields: seq<string>, excluded: seq<string>) returns (sent: Json)
    ensures var hidden := set field | field in sensitiveFields && field !in excluded;
            match body
            case Array(items) => sent.Array? && |sent.items| == |items|
                                 && forall i :: 0 <= i < |items| ==> sent.items[i] == Filter(items[i], hidden)
            case _ => sent == Filter(body, hidden)
  {
    var effective: seq<string> := [];
    for i := 0 to |sensitiveFields|
      invariant forall field :: field in effective <==> field in sensitiveFields[..i] && field !in excluded
    {
      if sensitiveFields[i] !in excluded {
        effective := effective + [sensitiveFields[i]];
      }
    }
    assert sensitiveFields[..|sensitiveFields|] == sensitiveFields;
    assert (set field | field in effective) == set field | field in sensitiveFields && field !in excluded;
    if body.Array? {
      var items: seq<Json> := [];
      for i := 0 to |body.items|
        invariant |items| == i
        invariant forall j :: 0 <= j < i ==> items[j] == Filter(body.items[j], set field | field in effective)
      {
        var item := FilterSensitiveData(body.items[i], effective);
        items := items + [item];
      }
      return Array(items);
    }
    sent := FilterSensitiveData(body, effective);
  }
}
