/**
 * Resolving the resource class from the `resourceDir` and `resourceName`
 * query parameters: two fully qualified class-name candidates, tried in
 * order against a registry of known classes that stands in for PHP's
 * class_exists and instanceof checks.
 */
module Resolution {
  import opened Php
  import opened Errors

  /** The namespace of version-1 resources, `app\resources\v1\`. */
  const ResourcePath := "app\\resources\\v1\\"
  /** The namespace separator, `\`. */
  const Separator := "\\"
  /** Appended to an input-data class name to find its custom filler. */
  const FillerSuffix := "HttpFiller"

  const MessageBadRequest := "Bad Request"
  const MessageResourceAbsent := "Resource is absent."
  const MessageNoRestInterface := "Resource does't have RestInterface implementation."

  /**
   * What the controller can learn about a declared class: whether it
   * implements RestInterface, whether it extends BaseResourceModel (and then
   * the name its getInputDataClassName returns), whether it implements
   * InputDataFiller, and its public fields with their default values in
   * declaration order.
   */
  datatype ClassInfo = ClassInfo(
    rest: bool,
    baseResource: bool,
    inputDataClass: string,
    filler: bool,
    fields: seq<(string, Value)>)

  /** The classes that exist, by fully qualified name. */
  type Registry = map<string, ClassInfo>

  /** The query parameters the controller reads the resource from. */
  const ResourceDirParam := "resourceDir"
  const ResourceNameParam := "resourceName"

  /** Position i holds the last query entry whose key is exactly key. */
  predicate LastWithKey(query: seq<Entry>, i: int, key: string)
  {
    0 <= i < |query| && query[i].0 == StrKey(key)
    && forall j :: i < j < |query| ==> query[j].0 != StrKey(key)
  }

  /**
   * getQueryParam(key) as strtolower receives it: the value of the entry with
   * exactly that key, the last one should the key repeat; a missing key or a
   * null gives null, which strtolower turns into "". Query-string values are
   * strings; any other value is treated as missing.
   */
  function QueryParam(query: seq<Entry>, key: string): (r: string)
    ensures (forall i :: 0 <= i < |query| ==> query[i].0 != StrKey(key)) ==> r == ""
    ensures forall i :: LastWithKey(query, i, key) ==> r == (if query[i].1.Str? then query[i].1.s else "")
    decreases |query|
  {
    if query == [] then ""
    else
      var last := query[|query| - 1];
      var p := query[..|query| - 1];
      assert forall i :: 0 <= i < |p| ==> p[i] == query[i];
      if last.0 == StrKey(key) then (if last.1.Str? then last.1.s else "")
      else QueryParam(p, key)
  }

  /**
   * The directory part: lower-cased, then a separator; nothing at all when the
   * directory is empty() ("" or "0").
   */
  function DirSegment(dir: string): (r: string)
    ensures r == "" <==> IsEmptyString(dir)
    ensures r != "" ==>
      && |r| == |dir| + 1 && r[|dir|] == '\\'
      && forall i :: 0 <= i < |dir| ==> r[i] == LowerChar(dir[i])
  {
    ToLowerAt(dir);
    var d := ToLower(dir);
    if IsEmptyString(d) then "" else d + Separator
  }

  /** The class part: lower-cased, ucfirst, then every hyphen removed. */
  function NormalName(name: string): (r: string)
    ensures '-' !in r
    ensures |r| <= |name|
  {
    Without(UcFirst(ToLower(name)), '-')
  }

  /**
   * The shape of a normalised name: no hyphen, no capital after the first
   * character, and a capital first character exactly when the raw name starts
   * with a letter. Since ucfirst runs before the hyphens go, "-order" keeps a
   * lower-case first letter.
   */
  lemma {:induction false} NormalNameShape(name: string)
    ensures '-' !in NormalName(name)
    ensures forall i :: 1 <= i < |NormalName(name)| ==> !IsUpper(NormalName(name)[i])
    ensures |NormalName(name)| > 0 ==> (IsUpper(NormalName(name)[0]) <==> IsLetter(name[0]))
  {
    var low := ToLower(name);
    var up := UcFirst(low);
    var r := NormalName(name);
    ToLowerAt(name);
    if |name| > 0 {
      assert up == [UpperChar(low[0])] + low[1..];
      var tail := Without(low[1..], '-');
      if up[0] == '-' {
        assert r == tail;
        forall i | 0 <= i < |r| ensures !IsUpper(r[i]) {
          WithoutFrom(low[1..], '-', i);
        }
      } else {
        assert r == [up[0]] + tail;
        forall i | 1 <= i < |r| ensures !IsUpper(r[i]) {
          assert r[i] == tail[i - 1];
          WithoutFrom(low[1..], '-', i - 1);
        }
      }
    }
  }

  /**
   * The content of a normalised name: a hyphen-free name keeps its length,
   * its first character becomes the capital of its lower-case form, and
   * every later character is lower-cased.
   */
  lemma NormalNamePlain(name: string)
    requires '-' !in name
    ensures |NormalName(name)| == |name|
    ensures |name| > 0 ==> NormalName(name)[0] == UpperChar(LowerChar(name[0]))
    ensures forall i :: 1 <= i < |name| ==> NormalName(name)[i] == LowerChar(name[i])
  {
    var up := UcFirst(ToLower(name));
    ToLowerAt(name);
    if |name| > 0 {
      assert up[0] == UpperChar(LowerChar(name[0]));
    }
    assert '-' !in up by {
      forall i | 0 <= i < |up| ensures up[i] != '-' {
        assert name[i] != '-';
      }
    }
    WithoutAbsent(up, '-');
  }

  /**
   * Hyphens split a name into pieces normalised on their own: the hyphens go
   * and the characters on either side keep their order.
   */
  lemma NormalNameSplit(a: string, b: string)
    requires |a| > 0
    ensures NormalName(a + "-" + b) == NormalName(a) + Without(ToLower(b), '-')
  {
    var low := ToLower(a + "-" + b);
    ToLowerAt(a + "-" + b);
    ToLowerAt(a);
    ToLowerAt(b);
    assert low == ToLower(a) + "-" + ToLower(b);
    var upa := UcFirst(ToLower(a));
    var rest := "-" + ToLower(b);
    assert UcFirst(low) == upa + rest;
    WithoutAppend(upa, rest, '-');
    WithoutAppend("-", ToLower(b), '-');
    assert Without("-", '-') == [];
    assert Without(rest, '-') == Without(ToLower(b), '-');
  }

  /**
   * getResourceClassCandidates: a 400 error when the normalised name is
   * empty in PHP's sense, otherwise exactly two candidates under the resource
   * namespace, the second being the first followed by a separator and the
   * name again.
   */
  function ResourceClassCandidates(dir: string, name: string): (r: Result<seq<string>>)
    ensures r.Err? <==> IsEmptyString(NormalName(name))
    ensures r.Err? ==> r.error == HttpException(StatusBadRequest, MessageBadRequest)
    ensures r.Ok? ==>
      && |r.value| == 2
      && r.value[0] == ResourcePath + DirSegment(dir) + NormalName(name)
      && r.value[1] == r.value[0] + Separator + NormalName(name)
  {
    var resourceClass := ResourcePath + DirSegment(dir);
    var resourceName := NormalName(name);
    if IsEmptyString(resourceName) then Err(HttpException(StatusBadRequest, MessageBadRequest))
    else
      var first := resourceClass + resourceName;
      Ok([first, first + Separator + resourceName])
  }

  /**
   * ucfirst runs before the hyphens go: a name that starts with a hyphen is
   * not capitalised at all, so "-order" normalises to "order", not "Order".
   */
  lemma LeadingHyphenStaysLowerCase(s: string)
    ensures NormalName("-" + s) == Without(ToLower(s), '-')
  {
    assert ToLower("-" + s) == "-" + ToLower(s);
    assert UcFirst("-" + ToLower(s)) == "-" + ToLower(s);
    assert ("-" + ToLower(s))[1..] == ToLower(s);
  }

  /** A directory of "0" is empty() in PHP, so it is dropped like a missing one. */
  lemma ZeroDirIsDropped(name: string)
    ensures ResourceClassCandidates("0", name) == ResourceClassCandidates("", name)
  {
    assert ToLower("0") == "0";
  }

  /** "0", "-" and "" all normalise to a name empty() accepts: 400. */
  lemma CandidatesForEmptyNames(dir: string)
    ensures ResourceClassCandidates(dir, "0").Err?
    ensures ResourceClassCandidates(dir, "-").Err?
    ensures ResourceClassCandidates(dir, "").Err?
  {
    assert ToLower("0") == "0";
    assert ToLower("-") == "-";
  }

  /** The first candidate that exists in the registry, if any. */
  function FirstIn(candidates: seq<string>, registry: Registry): (r: Option<string>)
    ensures r.Some? ==> r.value in registry && r.value in candidates
    ensures r.None? <==> forall i :: 0 <= i < |candidates| ==> candidates[i] !in registry
  {
    if candidates == [] then None
    else if candidates[0] in registry then Some(candidates[0])
    else FirstIn(candidates[1..], registry)
  }

  /** A candidate preceded only by absent ones is the one chosen. */
  lemma {:induction false} FirstInIsFirst(candidates: seq<string>, registry: Registry, k: nat)
    requires k < |candidates| && candidates[k] in registry
    requires forall j :: 0 <= j < k ==> candidates[j] !in registry
    ensures FirstIn(candidates, registry) == Some(candidates[k])
  {
    if k > 0 {
      FirstInIsFirst(candidates[1..], registry, k - 1);
    }
  }

  /**
   * The loop of initResourceObject over the candidates: it stops at the
   * first class that exists and never looks at the later ones.
   */
  method FindResourceClass(candidates: seq<string>, registry: Registry) returns (found: Option<string>)
    ensures found == FirstIn(candidates, registry)
  {
    found := None;
    var i := 0;
    while i < |candidates|
      invariant 0 <= i <= |candidates|
      invariant forall j :: 0 <= j < i ==> candidates[j] !in registry
    {
      if candidates[i] in registry {
        FirstInIsFirst(candidates, registry, i);
        found := Some(candidates[i]);
        break;
      }
      i := i + 1;
    }
  }

  /**
   * The class initResourceObject settles on, or the error it throws: 400 for
   * an empty name, 501 when no candidate exists, 501 when the chosen class
   * lacks RestInterface.
   */
  function ResolveClass(dir: string, name: string, registry: Registry): (r: Result<string>)
    ensures r.Ok? ==> r.value in registry && registry[r.value].rest
  {
    match ResourceClassCandidates(dir, name)
    case Err(e) => Err(e)
    case Ok(candidates) =>
      match FirstIn(candidates, registry)
      case None => Err(HttpException(StatusNotImplemented, MessageResourceAbsent))
      case Some(c) =>
        if registry[c].rest then Ok(c)
        else Err(HttpException(StatusNotImplemented, MessageNoRestInterface))
  }

  /**
   * Resolution in terms of the two candidates: the first one decides whenever
   * it exists, even when it lacks RestInterface and the second would qualify;
   * the second is used only when the first is absent; every failure is a 400
   * for an empty name or a 501.
   */
  lemma ResolveByCandidates(dir: string, name: string, registry: Registry)
    ensures ResourceClassCandidates(dir, name).Ok? ==>
      var c := ResourceClassCandidates(dir, name).value;
      var r := ResolveClass(dir, name, registry);
      && (c[0] in registry ==>
            r == if registry[c[0]].rest then Ok(c[0])
                 else Err(HttpException(StatusNotImplemented, MessageNoRestInterface)))
      && (c[0] !in registry && c[1] in registry ==>
            r == if registry[c[1]].rest then Ok(c[1])
                 else Err(HttpException(StatusNotImplemented, MessageNoRestInterface)))
      && (c[0] !in registry && c[1] !in registry ==>
            r == Err(HttpException(StatusNotImplemented, MessageResourceAbsent)))
    ensures ResourceClassCandidates(dir, name).Err? ==>
      ResolveClass(dir, name, registry) == Err(HttpException(StatusBadRequest, MessageBadRequest))
  {
    if ResourceClassCandidates(dir, name).Ok? {
      var c := ResourceClassCandidates(dir, name).value;
      if c[0] in registry {
        FirstInIsFirst(c, registry, 0);
      } else if c[1] in registry {
        FirstInIsFirst(c, registry, 1);
      }
    }
  }

  /**
   * getInputDataCustomFiller: the input-data class name with the filler
   * suffix, when such a class exists and implements InputDataFiller.
   */
  function CustomFiller(inputDataClass: string, registry: Registry): (r: Option<string>)
    ensures r.Some? ==> r.value == inputDataClass + FillerSuffix && r.value in registry && registry[r.value].filler
    ensures r.None? ==> inputDataClass + FillerSuffix !in registry || !registry[inputDataClass + FillerSuffix].filler
  {
    var c := inputDataClass + FillerSuffix;
    if c in registry && registry[c].filler then Some(c) else None
  }
}
