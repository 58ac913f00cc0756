/**
 * The controller itself: resolving and preparing the resource object, the
 * verb table, and translating a resource's result into the response.
 */
module Controller {
  import opened Php
  import opened Errors
  import opened Resolution
  import opened Binding

  /**
   * What a resource method returns: a ResourceModelResult carrying a status
   * code, a status message and a body, or any other value, sent as it is.
   */
  datatype ActionResult =
    | Structured(statusCode: int, statusMessage: string, bodyContent: Value)
    | Raw(value: Value)

  /** The effect of sendResponse: a response sent with this status and data, or an exception. */
  datatype Outcome = Sent(statusCode: int, data: Value) | Raised(error: Error)

  /** The six actions, each calling the resource method of the same name. */
  datatype Action = Index | View | Create | Update | Delete | Upsert

  function ActionId(a: Action): string
  {
    match a
    case Index => "index"
    case View => "view"
    case Create => "create"
    case Update => "update"
    case Delete => "delete"
    case Upsert => "upsert"
  }

  /** verbs(): the HTTP methods the verb filter admits, one for each of the six actions. */
  function Verbs(): (r: map<string, seq<string>>)
    ensures forall a :: ActionId(a) in r && |r[ActionId(a)]| == 1
    ensures |r| == 6
  {
    map[
      "index" := ["GET"],
      "view" := ["GET"],
      "create" := ["POST"],
      "update" := ["PATCH"],
      "delete" := ["DELETE"],
      "upsert" := ["PUT"]
    ]
  }

  predicate Allowed(a: Action, verb: string)
  {
    ActionId(a) in Verbs() && verb in Verbs()[ActionId(a)]
  }

  /**
   * Every action admits exactly one verb, and two different actions share a
   * verb only when they are index and view, both GET.
   */
  lemma VerbTable(a: Action, b: Action, verb: string)
    ensures ActionId(a) in Verbs() && |Verbs()[ActionId(a)]| == 1
    ensures Allowed(a, verb) && Allowed(b, verb) && a != b ==>
      verb == "GET" && {a, b} == {Index, View}
    ensures Allowed(Index, "GET") && Allowed(View, "GET") && Allowed(Create, "POST")
    ensures Allowed(Update, "PATCH") && Allowed(Delete, "DELETE") && Allowed(Upsert, "PUT")
  {
  }

  /**
   * sendResponse on a result, given the status already set. It raises
   * exactly for a structured result above 201, and the exception carries that
   * status and message; a structured result up to 201 is sent with its own
   * status and body; anything else is the body, with the status left as it was.
   */
  function Translate(statusCode: int, result: ActionResult): (r: Outcome)
    ensures r.Raised? <==> result.Structured? && result.statusCode > StatusCreated
    ensures r.Raised? ==> r.error == HttpException(result.statusCode, result.statusMessage)
    ensures r.Sent? && result.Structured? ==>
      r == Sent(result.statusCode, result.bodyContent) && result.statusCode <= StatusCreated
    ensures result.Raw? ==> r == Sent(statusCode, result.value)
  {
    match result
    case Structured(code, message, body) =>
      if code > StatusCreated then Raised(HttpException(code, message)) else Sent(code, body)
    case Raw(v) => Sent(statusCode, v)
  }

  /**
   * The status in force when an action calls sendResponse: create sets 201
   * first, every other action leaves the status it finds.
   */
  function StatusBeforeSend(action: Action, statusCode: int): (s: int)
    ensures s == StatusCreated <==> action == Create || statusCode == StatusCreated
    ensures s != StatusCreated ==> s == statusCode
  {
    if action == Create then StatusCreated else statusCode
  }

  /**
   * An action's response: create answers 201 for anything but a structured
   * result, the other actions keep the status already set; no action sends a
   * status above 201 unless that status was already set.
   */
  lemma ActionStatus(action: Action, statusCode: int, result: ActionResult)
    ensures result.Raw? ==>
      Translate(StatusBeforeSend(action, statusCode), result)
        == Sent(if action == Create then 201 else statusCode, result.value)
    ensures Translate(StatusBeforeSend(action, statusCode), result).Sent? ==>
      var s := Translate(StatusBeforeSend(action, statusCode), result).statusCode;
      s <= 201 || (action != Create && s == statusCode)
  {
  }

  /** The framework's response object, reduced to what the controller touches. */
  class Response {
    var statusCode: int
    var data: Value
    var isSent: bool

    constructor ()
      ensures statusCode == 200 && data == Null && !isSent
    {
      statusCode := 200;
      data := Null;
      isSent := false;
    }
  }

  /**
   * The resource object the controller keeps: its class, the input-data
   * object handed to it (for a BaseResourceModel) and the custom filler that
   * populated that object, if one was used.
   */
  datatype ResourceObject = ResourceObject(
    className: string,
    inputData: Option<InputContainer>,
    customFiller: Option<string>)

  /** Every declared class has distinct public field names, as PHP enforces. */
  ghost predicate WellFormed(registry: Registry)
  {
    forall c :: c in registry ==> Distinct(FieldNames(registry[c].fields))
  }

  /** The class the resourceDir and resourceName query parameters resolve to, or the error. */
  ghost function Requested(query: seq<Entry>, registry: Registry): Result<string>
  {
    ResolveClass(QueryParam(query, ResourceDirParam), QueryParam(query, ResourceNameParam), registry)
  }

  class Apiv1Controller {
    var resourceObject: Option<ResourceObject>
    const response: Response

    constructor ()
      ensures resourceObject.None? && fresh(response)
      ensures response.statusCode == 200 && response.data == Null && !response.isSent
    {
      resourceObject := None;
      response := new Response();
    }

    /**
     * initResourceObject: resolve the class named by the resourceDir and
     * resourceName query parameters; for a BaseResourceModel create
     * its input-data object (a LogicException when that class is missing) and
     * either hand it to the custom filler or bind it by default, which may
     * fail on the body; then keep the resource object. On every error the
     * controller is left as it was.
     */
    method InitResourceObject(registry: Registry, rawBody: string, decode: string -> Decoded,
                              query: seq<Entry>)
      returns (err: Option<Error>)
      requires WellFormed(registry)
      modifies this
      ensures Requested(query, registry).Err? ==>
        err == Some(Requested(query, registry).error) && resourceObject == old(resourceObject)
      ensures Requested(query, registry).Ok? ==>
        var c := Requested(query, registry).value;
        var info := registry[c];
        && (!info.baseResource ==>
              err.None? && resourceObject == Some(ResourceObject(c, None, None)))
        && (info.baseResource && info.inputDataClass !in registry ==>
              err == Some(LogicException("Class '" + info.inputDataClass + "' does not exist."))
              && resourceObject == old(resourceObject))
        && (info.baseResource && info.inputDataClass in registry ==>
              var fields := registry[info.inputDataClass].fields;
              var filler := CustomFiller(info.inputDataClass, registry);
              if filler.None? && DecodedBody(rawBody, decode).Err? then
                err == Some(DecodedBody(rawBody, decode).error) && resourceObject == old(resourceObject)
              else
                && err.None?
                && resourceObject.Some?
                && resourceObject.value.className == c
                && resourceObject.value.customFiller == filler
                && resourceObject.value.inputData.Some?
                && fresh(resourceObject.value.inputData.value)
                && resourceObject.value.inputData.value.names == FieldNames(fields)
                && resourceObject.value.inputData.value.values ==
                     if filler.Some? then FieldValues(fields)
                     else Bind(FieldNames(fields), FieldValues(fields), DecodedBody(rawBody, decode).value, query))
    {
      var dir := QueryParam(query, ResourceDirParam);
      var name := QueryParam(query, ResourceNameParam);
      var candidates := ResourceClassCandidates(dir, name);
      if candidates.Err? {
        return Some(candidates.error);
      }
      var model := FindResourceClass(candidates.value, registry);
      if model.None? {
        return Some(HttpException(StatusNotImplemented, MessageResourceAbsent));
      }
      var info := registry[model.value];
      if !info.rest {
        return Some(HttpException(StatusNotImplemented, MessageNoRestInterface));
      }
      err := None;
      var inputData: Option<InputContainer> := None;
      var customFiller: Option<string> := None;
      if info.baseResource {
        var inputClass := info.inputDataClass;
        if inputClass !in registry {
          return Some(LogicException("Class '" + inputClass + "' does not exist."));
        }
        var container := new InputContainer(registry[inputClass].fields);
        customFiller := CustomFiller(inputClass, registry);
        if customFiller.None? {
          err := FillInputDataContainer(container, rawBody, decode, query);
          if err.Some? {
            return;
          }
        }
        inputData := Some(container);
      }
      resourceObject := Some(ResourceObject(model.value, inputData, customFiller));
    }

    /** sendResponse: the response follows Translate; an exception leaves it untouched. */
    method SendResponse(result: ActionResult) returns (err: Option<Error>)
      modifies response
      ensures match Translate(old(response.statusCode), result)
        case Sent(s, d) =>
          err.None? && response.statusCode == s && response.data == d && response.isSent
        case Raised(e) =>
          err == Some(e) && unchanged(response)
    {
      if result.Structured? {
        if result.statusCode > StatusCreated {
          return Some(HttpException(result.statusCode, result.statusMessage));
        }
        response.statusCode := result.statusCode;
        response.data := result.bodyContent;
      } else {
        response.data := result.value;
      }
      response.isSent := true;
      err := None;
    }

    /**
     * The actions: create sets status 201, then every action sends what its
     * resource method returned. When sendResponse raises, the 201 that create
     * set stays.
     */
    method RunAction(action: Action, result: ActionResult) returns (err: Option<Error>)
      modifies response
      ensures match Translate(StatusBeforeSend(action, old(response.statusCode)), result)
        case Sent(s, d) =>
          err.None? && response.statusCode == s && response.data == d && response.isSent
        case Raised(e) =>
          && err == Some(e)
          && response.statusCode == StatusBeforeSend(action, old(response.statusCode))
          && response.data == old(response.data) && response.isSent == old(response.isSent)
    {
      if action == Create {
        response.statusCode := StatusCreated;
      }
      err := SendResponse(result);
    }
  }
}
