/**
 * Binding request data to the input-data container: decoding the raw body,
 * indexing the container's public fields by lower-cased name, and the
 * default binding that fills matching fields from the body first and from
 * the query string second.
 */
module Binding {
  import opened Php
  import opened Errors

  const MessageInvalidJson := "Invalid JSON in the body."

  /** What Json::decode makes of a raw body: a parse failure or a PHP value. */
  datatype Decoded = Malformed | Parsed(value: Value)

  /**
   * getDecodedBody: an empty() raw body is an empty array; otherwise the body
   * must decode to a PHP array, and anything else (a parse failure, a scalar,
   * null) is a 400 error with the fixed message.
   */
  function DecodedBody(rawBody: string, decode: string -> Decoded): (r: Result<seq<Entry>>)
    ensures IsEmptyString(rawBody) ==> r == Ok([])
    ensures r.Err? ==> r.error == HttpException(StatusBadRequest, MessageInvalidJson)
    ensures !IsEmptyString(rawBody) ==>
      (r.Ok? <==> decode(rawBody).Parsed? && decode(rawBody).value.Arr?)
    ensures r.Ok? && !IsEmptyString(rawBody) ==> r.value == decode(rawBody).value.entries
  {
    if IsEmptyString(rawBody) then Ok([])
    else
      match decode(rawBody)
      case Malformed => Err(HttpException(StatusBadRequest, MessageInvalidJson))
      case Parsed(v) =>
        if v.Arr? then Ok(v.entries) else Err(HttpException(StatusBadRequest, MessageInvalidJson))
  }

  /** A raw body of "0" is empty() in PHP: it binds nothing instead of failing. */
  lemma ZeroBodyIsEmpty(decode: string -> Decoded)
    ensures DecodedBody("0", decode) == Ok([])
  {
  }

  predicate Distinct(names: seq<string>)
  {
    forall i, j :: 0 <= i < j < |names| ==> names[i] != names[j]
  }

  /**
   * The index the binder builds from get_object_vars: lower-cased field name
   * to field name. PHP property names are case-sensitive, so two fields can
   * share a lower-cased name; the later one in declaration order wins.
   */
  function FieldIndex(names: seq<string>): (index: map<string, string>)
    ensures forall i :: 0 <= i < |names| ==> ToLower(names[i]) in index
    ensures forall l :: l in index ==> ToLower(index[l]) == l && index[l] in names
    decreases |names|
  {
    if names == [] then map[]
    else
      var p := names[..|names| - 1];
      assert forall i :: 0 <= i < |p| ==> p[i] == names[i];
      FieldIndex(p)[ToLower(names[|names| - 1]) := names[|names| - 1]]
  }

  /** Position k holds the last field whose lower-cased name is l. */
  predicate LastWithLower(names: seq<string>, k: nat, l: string)
  {
    k < |names| && ToLower(names[k]) == l
    && forall j :: k < j < |names| ==> ToLower(names[j]) != l
  }

  /** The field an index entry names is the last field with that lower-cased name. */
  lemma {:induction false} FieldIndexPicksLast(names: seq<string>, l: string) returns (k: nat)
    requires l in FieldIndex(names)
    ensures LastWithLower(names, k, l) && FieldIndex(names)[l] == names[k]
    decreases |names|
  {
    var n := |names|;
    var p := names[..n - 1];
    assert FieldIndex(names) == FieldIndex(p)[ToLower(names[n - 1]) := names[n - 1]];
    if ToLower(names[n - 1]) == l {
      k := n - 1;
    } else {
      k := FieldIndexPicksLast(p, l);
      assert names[k] == p[k];
      forall j | k < j < n ensures ToLower(names[j]) != l {
        if j < n - 1 {
          assert names[j] == p[j];
        }
      }
    }
  }

  /** A field whose lower-cased name no later field shares is its own index entry. */
  lemma FieldIndexOfLast(names: seq<string>, i: nat)
    requires i < |names| && Distinct(names)
    requires forall j :: i < j < |names| ==> ToLower(names[j]) != ToLower(names[i])
    ensures ToLower(names[i]) in FieldIndex(names)
    ensures FieldIndex(names)[ToLower(names[i])] == names[i]
  {
    var k := FieldIndexPicksLast(names, ToLower(names[i]));
    assert !(k < i);
    assert !(i < k);
  }

  /** A field followed by a field with the same lower-cased name is never indexed. */
  lemma FieldIndexShadowed(names: seq<string>, i: nat, j: nat)
    requires i < j < |names| && Distinct(names)
    requires ToLower(names[j]) == ToLower(names[i])
    ensures FieldIndex(names)[ToLower(names[i])] != names[i]
  {
    var k := FieldIndexPicksLast(names, ToLower(names[i]));
    assert j <= k;
  }

  /**
   * The value the default binding gives one field: the lower-cased body's
   * value when set, else the lower-cased query's value when set, else the
   * prior value; a field that lost the index to a same-named later field
   * keeps its prior value.
   */
  function BindField(name: string, prior: Value, index: map<string, string>,
                     body: map<Key, Value>, query: map<Key, Value>): Value
  {
    var l := ToLower(name);
    if l in index && index[l] == name then
      if Isset(body, StrKey(l)) then body[StrKey(l)]
      else if Isset(query, StrKey(l)) then query[StrKey(l)]
      else prior
    else prior
  }

  /** The container's fields after default binding of the given body and query. */
  function Bind(names: seq<string>, values: map<string, Value>,
                body: seq<Entry>, query: seq<Entry>): (r: map<string, Value>)
    ensures r.Keys == values.Keys
  {
    var index := FieldIndex(names);
    var b := ChangeKeyCaseLower(body);
    var q := ChangeKeyCaseLower(query);
    map n | n in values :: BindField(n, values[n], index, b, q)
  }

  /**
   * Body precedence: a field takes the value of the last body entry whose key
   * matches its name case-insensitively, when that value is not null,
   * whatever the query string holds.
   */
  lemma BindFromBody(names: seq<string>, values: map<string, Value>,
                     body: seq<Entry>, query: seq<Entry>, i: nat, e: nat)
    requires Distinct(names) && i < |names| && names[i] in values
    requires forall j :: i < j < |names| ==> ToLower(names[j]) != ToLower(names[i])
    requires e < |body| && LowerKey(body[e].0) == StrKey(ToLower(names[i]))
    requires forall f :: e < f < |body| ==> LowerKey(body[f].0) != LowerKey(body[e].0)
    requires body[e].1 != Null
    ensures Bind(names, values, body, query)[names[i]] == body[e].1
  {
    FieldIndexOfLast(names, i);
    ChangeKeyCaseLast(body, e);
  }

  /**
   * Query fallback: a field with no body entry matching it, or whose last
   * matching body entry is null (isset fails on null), takes the value of the
   * last matching query entry when that is not null.
   */
  lemma BindFromQuery(names: seq<string>, values: map<string, Value>,
                      body: seq<Entry>, query: seq<Entry>, i: nat, e: nat)
    requires Distinct(names) && i < |names| && names[i] in values
    requires forall j :: i < j < |names| ==> ToLower(names[j]) != ToLower(names[i])
    requires !Isset(ChangeKeyCaseLower(body), StrKey(ToLower(names[i])))
    requires e < |query| && LowerKey(query[e].0) == StrKey(ToLower(names[i]))
    requires forall f :: e < f < |query| ==> LowerKey(query[f].0) != LowerKey(query[e].0)
    requires query[e].1 != Null
    ensures Bind(names, values, body, query)[names[i]] == query[e].1
  {
    FieldIndexOfLast(names, i);
    ChangeKeyCaseLast(query, e);
  }

  /** A body entry that is null leaves the field to the query string. */
  lemma NullBodyValueIsUnset(body: seq<Entry>, e: nat)
    requires e < |body| && body[e].1 == Null
    requires forall f :: e < f < |body| ==> LowerKey(body[f].0) != LowerKey(body[e].0)
    ensures !Isset(ChangeKeyCaseLower(body), LowerKey(body[e].0))
  {
    ChangeKeyCaseLast(body, e);
  }

  /**
   * Untouched fields: a field that neither the lower-cased body nor the
   * lower-cased query sets (no matching key, or only null under it) keeps its
   * prior value.
   */
  lemma BindUnmatched(names: seq<string>, values: map<string, Value>,
                      body: seq<Entry>, query: seq<Entry>, n: string)
    requires n in values
    requires !Isset(ChangeKeyCaseLower(body), StrKey(ToLower(n)))
    requires !Isset(ChangeKeyCaseLower(query), StrKey(ToLower(n)))
    ensures Bind(names, values, body, query)[n] == values[n]
  {
  }

  /** Appending an entry to a PHP array sets its lowered key last. */
  lemma ChangeKeyCaseAppend(a: seq<Entry>, k: Key, v: Value)
    ensures ChangeKeyCaseLower(a + [(k, v)]) == ChangeKeyCaseLower(a)[LowerKey(k) := v]
  {
    assert (a + [(k, v)])[..|a|] == a;
  }

  /** Setting a key that is not the field's own lowered name leaves the field's binding alone. */
  lemma BindFieldIgnores(n: string, prior: Value, index: map<string, string>,
                         b: map<Key, Value>, q: map<Key, Value>, key: Key, v: Value)
    requires ToLower(n) in index && index[ToLower(n)] == n ==> key != StrKey(ToLower(n))
    ensures BindField(n, prior, index, b[key := v], q) == BindField(n, prior, index, b, q)
    ensures BindField(n, prior, index, b, q[key := v]) == BindField(n, prior, index, b, q)
  {
  }

  /** An appended body entry whose key matches no field leaves the binding as it was. */
  lemma BindIgnoresForeignBodyKey(names: seq<string>, values: map<string, Value>,
                                  body: seq<Entry>, query: seq<Entry>, k: Key, v: Value)
    requires forall n :: n in names ==> LowerKey(k) != StrKey(ToLower(n))
    ensures Bind(names, values, body + [(k, v)], query) == Bind(names, values, body, query)
  {
    var index := FieldIndex(names);
    var b := ChangeKeyCaseLower(body);
    var q := ChangeKeyCaseLower(query);
    ChangeKeyCaseAppend(body, k, v);
    var after := Bind(names, values, body + [(k, v)], query);
    var before := Bind(names, values, body, query);
    forall n | n in values ensures after[n] == before[n] {
      var l := ToLower(n);
      if l in index && index[l] == n {
        assert n in names;
      }
      BindFieldIgnores(n, values[n], index, b, q, LowerKey(k), v);
    }
  }

  /** An appended query entry whose key matches no field leaves the binding as it was. */
  lemma BindIgnoresForeignQueryKey(names: seq<string>, values: map<string, Value>,
                                   body: seq<Entry>, query: seq<Entry>, k: Key, v: Value)
    requires forall n :: n in names ==> LowerKey(k) != StrKey(ToLower(n))
    ensures Bind(names, values, body, query + [(k, v)]) == Bind(names, values, body, query)
  {
    var index := FieldIndex(names);
    var b := ChangeKeyCaseLower(body);
    var q := ChangeKeyCaseLower(query);
    ChangeKeyCaseAppend(query, k, v);
    var after := Bind(names, values, body, query + [(k, v)]);
    var before := Bind(names, values, body, query);
    forall n | n in values ensures after[n] == before[n] {
      var l := ToLower(n);
      if l in index && index[l] == n {
        assert n in names;
      }
      BindFieldIgnores(n, values[n], index, b, q, LowerKey(k), v);
    }
  }

  /**
   * Keys that name no field change nothing: an extra body or query entry
   * whose key matches no field case-insensitively leaves the binding as it was.
   */
  lemma BindIgnoresForeignKey(names: seq<string>, values: map<string, Value>,
                              body: seq<Entry>, query: seq<Entry>, k: Key, v: Value)
    requires forall n :: n in names ==> LowerKey(k) != StrKey(ToLower(n))
    ensures Bind(names, values, body + [(k, v)], query) == Bind(names, values, body, query)
    ensures Bind(names, values, body, query + [(k, v)]) == Bind(names, values, body, query)
  {
    BindIgnoresForeignBodyKey(names, values, body, query, k, v);
    BindIgnoresForeignQueryKey(names, values, body, query, k, v);
  }

  /** Of two fields whose names differ only in case, the earlier one is never bound. */
  lemma BindShadowedField(names: seq<string>, values: map<string, Value>,
                          body: seq<Entry>, query: seq<Entry>, i: nat, j: nat)
    requires i < j < |names| && Distinct(names) && names[i] in values
    requires ToLower(names[j]) == ToLower(names[i])
    ensures Bind(names, values, body, query)[names[i]] == values[names[i]]
  {
    FieldIndexShadowed(names, i, j);
  }

  /**
   * The input-data object: its public fields in declaration order and their
   * current values. The binder assigns the values in place.
   */
  class InputContainer {
    const names: seq<string>
    var values: map<string, Value>

    ghost predicate Valid()
      reads this
    {
      Distinct(names) && values.Keys == set n | n in names
    }

    /** A fresh object of the input-data class, with the declared defaults. */
    constructor (fields: seq<(string, Value)>)
      requires Distinct(FieldNames(fields))
      ensures Valid() && names == FieldNames(fields) && values == FieldValues(fields)
    {
      names := FieldNames(fields);
      values := FieldValues(fields);
    }
  }

  function FieldNames(fields: seq<(string, Value)>): (names: seq<string>)
    ensures |names| == |fields|
    ensures forall i :: 0 <= i < |fields| ==> names[i] == fields[i].0
  {
    seq(|fields|, i requires 0 <= i < |fields| => fields[i].0)
  }

  /** The declared fields as a map from name to default value. */
  function FieldValues(fields: seq<(string, Value)>): (values: map<string, Value>)
    ensures values.Keys == set n | n in FieldNames(fields)
    decreases |fields|
  {
    if fields == [] then map[]
    else
      var p := fields[..|fields| - 1];
      assert FieldNames(fields) == FieldNames(p) + [fields[|fields| - 1].0];
      FieldValues(p)[fields[|fields| - 1].0 := fields[|fields| - 1].1]
  }

  /** With distinct names, every declared field holds its own default value. */
  lemma {:induction false} FieldValuesAt(fields: seq<(string, Value)>, i: nat)
    requires Distinct(FieldNames(fields)) && i < |fields|
    ensures fields[i].0 in FieldValues(fields) && FieldValues(fields)[fields[i].0] == fields[i].1
    decreases |fields|
  {
    var p := fields[..|fields| - 1];
    if i < |p| {
      assert fields[i].0 != fields[|fields| - 1].0 by {
        assert FieldNames(fields)[i] != FieldNames(fields)[|fields| - 1];
      }
      assert Distinct(FieldNames(p)) by {
        forall a, b | 0 <= a < b < |p| ensures FieldNames(p)[a] != FieldNames(p)[b] {
          assert FieldNames(fields)[a] != FieldNames(fields)[b];
        }
      }
      FieldValuesAt(p, i);
      assert p[i] == fields[i];
    }
  }

  /**
   * The container after one pass of the binder that has handled the index
   * entries in done: each handled field whose key is set takes its value.
   */
  ghost function Pass(values: map<string, Value>, index: map<string, string>,
                      params: map<Key, Value>, done: set<string>): map<string, Value>
  {
    map n | n in values ::
      var l := ToLower(n);
      if l in done && l in index && index[l] == n && Isset(params, StrKey(l))
      then params[StrKey(l)] else values[n]
  }

  /** The index entries the body pass leaves for the query pass. */
  ghost function Unbound(index: map<string, string>, params: map<Key, Value>): map<string, string>
  {
    map l | l in index && !Isset(params, StrKey(l)) :: index[l]
  }

  /** The two passes together are the default binding. */
  lemma PassesBind(names: seq<string>, values: map<string, Value>, body: seq<Entry>, query: seq<Entry>)
    ensures
      var index := FieldIndex(names);
      var b := ChangeKeyCaseLower(body);
      var q := ChangeKeyCaseLower(query);
      Pass(Pass(values, index, b, index.Keys), Unbound(index, b), q, Unbound(index, b).Keys)
        == Bind(names, values, body, query)
  {
  }

  /** An index whose entries name fields of the container under their own lower-cased names. */
  ghost predicate IndexOf(index: map<string, string>, values: map<string, Value>)
  {
    forall l :: l in index ==> index[l] in values && ToLower(index[l]) == l
  }

  /** Handling one more index entry assigns at most the one field it names. */
  lemma PassStep(prior: map<string, Value>, index: map<string, string>,
                 params: map<Key, Value>, done: set<string>, l: string)
    requires IndexOf(index, prior) && l in index && l !in done
    ensures Pass(prior, index, params, done + {l})
      == if Isset(params, StrKey(l))
         then Pass(prior, index, params, done)[index[l] := params[StrKey(l)]]
         else Pass(prior, index, params, done)
  {
    var before := Pass(prior, index, params, done);
    var after := Pass(prior, index, params, done + {l});
    if Isset(params, StrKey(l)) {
      var want := before[index[l] := params[StrKey(l)]];
      assert after.Keys == want.Keys;
      forall n | n in after ensures after[n] == want[n] {
        if n == index[l] {
          assert ToLower(n) == l;
        }
      }
    } else {
      assert after.Keys == before.Keys;
      forall n | n in after ensures after[n] == before[n] {
      }
    }
  }

  /** The index entries still held during the body pass. */
  ghost function Remaining(index: map<string, string>, params: map<Key, Value>, todo: set<string>): map<string, string>
  {
    map l | l in index && (l in todo || !Isset(params, StrKey(l))) :: index[l]
  }

  /** Before the body pass the whole index remains; after it, the unbound entries. */
  lemma RemainingEnds(index: map<string, string>, params: map<Key, Value>)
    ensures Remaining(index, params, index.Keys) == index
    ensures Remaining(index, params, {}) == Unbound(index, params)
  {
  }

  /** Handling one entry in the body pass drops it from the index exactly when its key is set. */
  lemma RemainingStep(index: map<string, string>, params: map<Key, Value>, todo: set<string>, l: string)
    requires l in todo
    ensures Remaining(index, params, todo - {l})
      == if Isset(params, StrKey(l)) then Remaining(index, params, todo) - {l} else Remaining(index, params, todo)
  {
    var a := Remaining(index, params, todo - {l});
    var b := if Isset(params, StrKey(l)) then Remaining(index, params, todo) - {l} else Remaining(index, params, todo);
    assert a.Keys == b.Keys;
  }

  /** One iteration of a pass over the index entries still to do. */
  lemma QueryStep(prior: map<string, Value>, index: map<string, string>,
                  params: map<Key, Value>, todo: set<string>, l: string)
    requires IndexOf(index, prior) && todo <= index.Keys && l in todo
    ensures Pass(prior, index, params, index.Keys - (todo - {l}))
      == if Isset(params, StrKey(l))
         then Pass(prior, index, params, index.Keys - todo)[index[l] := params[StrKey(l)]]
         else Pass(prior, index, params, index.Keys - todo)
  {
    PassStep(prior, index, params, index.Keys - todo, l);
    assert index.Keys - todo + {l} == index.Keys - (todo - {l});
  }

  /** One iteration of the body pass, on the values and on the index together. */
  lemma BodyStep(prior: map<string, Value>, index: map<string, string>,
                 params: map<Key, Value>, todo: set<string>, l: string)
    requires IndexOf(index, prior) && todo <= index.Keys && l in todo
    ensures l in Remaining(index, params, todo) && Remaining(index, params, todo)[l] == index[l]
    ensures Pass(prior, index, params, index.Keys - (todo - {l}))
      == if Isset(params, StrKey(l))
         then Pass(prior, index, params, index.Keys - todo)[index[l] := params[StrKey(l)]]
         else Pass(prior, index, params, index.Keys - todo)
    ensures Remaining(index, params, todo - {l})
      == if Isset(params, StrKey(l)) then Remaining(index, params, todo) - {l} else Remaining(index, params, todo)
  {
    QueryStep(prior, index, params, todo, l);
    RemainingStep(index, params, todo, l);
  }

  /** The first loop of fillInputDataContainer: index the fields by lower-cased name. */
  method BuildFieldIndex(names: seq<string>) returns (objectVarsMap: map<string, string>)
    ensures objectVarsMap == FieldIndex(names)
  {
    objectVarsMap := map[];
    var i := 0;
    while i < |names|
      invariant 0 <= i <= |names|
      invariant objectVarsMap == FieldIndex(names[..i])
    {
      objectVarsMap := objectVarsMap[ToLower(names[i]) := names[i]];
      i := i + 1;
      assert names[..i][..i - 1] == names[..i - 1];
    }
    assert names[..i] == names;
  }

  /**
   * The body loop of fillInputDataContainer: every indexed field whose key is
   * set in the lower-cased body is assigned, and its entry leaves the index.
   */
  method AssignFromBody(container: InputContainer, index: map<string, string>, params: map<Key, Value>)
    returns (objectVarsMap: map<string, string>)
    requires container.Valid() && IndexOf(index, container.values)
    modifies container
    ensures container.Valid()
    ensures container.values == Pass(old(container.values), index, params, index.Keys)
    ensures objectVarsMap == Unbound(index, params)
  {
    ghost var prior := container.values;
    objectVarsMap := index;
    var todo := index.Keys;
    RemainingEnds(index, params);
    while todo != {}
      invariant todo <= index.Keys
      invariant objectVarsMap == Remaining(index, params, todo)
      invariant container.values == Pass(prior, index, params, index.Keys - todo)
      decreases todo
    {
      var l :| l in todo;
      var name := objectVarsMap[l];
      BodyStep(prior, index, params, todo, l);
      if Isset(params, StrKey(l)) {
        container.values := container.values[name := params[StrKey(l)]];
        objectVarsMap := objectVarsMap - {l};
      }
      todo := todo - {l};
    }
    assert index.Keys - todo == index.Keys;
  }

  /**
   * The query loop of fillInputDataContainer: every field still indexed whose
   * key is set in the lower-cased query string is assigned.
   */
  method AssignFromQuery(container: InputContainer, objectVarsMap: map<string, string>, params: map<Key, Value>)
    requires container.Valid() && IndexOf(objectVarsMap, container.values)
    modifies container
    ensures container.Valid()
    ensures container.values == Pass(old(container.values), objectVarsMap, params, objectVarsMap.Keys)
  {
    ghost var prior := container.values;
    var todo := objectVarsMap.Keys;
    while todo != {}
      invariant todo <= objectVarsMap.Keys
      invariant container.values == Pass(prior, objectVarsMap, params, objectVarsMap.Keys - todo)
      decreases todo
    {
      var l :| l in todo;
      QueryStep(prior, objectVarsMap, params, todo, l);
      if Isset(params, StrKey(l)) {
        container.values := container.values[objectVarsMap[l] := params[StrKey(l)]];
      }
      todo := todo - {l};
    }
    assert objectVarsMap.Keys - todo == objectVarsMap.Keys;
  }

  /** With no key set, a pass assigns nothing. */
  lemma PassNothingSet(values: map<string, Value>, index: map<string, string>, params: map<Key, Value>)
    requires |params| == 0
    ensures Pass(values, index, params, index.Keys) == values
    ensures Unbound(index, params) == index
  {
  }

  /**
   * fillInputDataContainer: build the field index, decode the body (a
   * decoding error leaves the container untouched), assign fields from the
   * lower-cased body when it is not empty and drop them from the index, then
   * assign the fields still indexed from the lower-cased query string.
   */
  method FillInputDataContainer(container: InputContainer, rawBody: string,
                                decode: string -> Decoded, query: seq<Entry>)
    returns (err: Option<Error>)
    requires container.Valid()
    modifies container
    ensures container.Valid()
    ensures DecodedBody(rawBody, decode).Err? ==>
      err == Some(DecodedBody(rawBody, decode).error) && container.values == old(container.values)
    ensures DecodedBody(rawBody, decode).Ok? ==>
      err.None? &&
      container.values == Bind(container.names, old(container.values), DecodedBody(rawBody, decode).value, query)
  {
    var objectVarsMap := BuildFieldIndex(container.names);
    var decoded := DecodedBody(rawBody, decode);
    if decoded.Err? {
      return Some(decoded.error);
    }
    err := None;

    ghost var index := objectVarsMap;
    ghost var prior := container.values;
    assert IndexOf(index, prior);
    var params := ChangeKeyCaseLower(decoded.value);
    if |params| > 0 {
      objectVarsMap := AssignFromBody(container, objectVarsMap, params);
    } else {
      PassNothingSet(prior, index, params);
    }
    assert IndexOf(objectVarsMap, container.values);
    AssignFromQuery(container, objectVarsMap, ChangeKeyCaseLower(query));
    PassesBind(container.names, prior, decoded.value, query);
  }
}
