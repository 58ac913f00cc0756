# Apiv1Controller, modelled in Dafny

`Apiv1Controller` is a Yii controller that serves every version-1 REST resource.
From the `resourceDir` and `resourceName` query parameters it resolves a resource
class. If that class is a `BaseResourceModel`, it creates the class's input-data
object and fills it from the request. It then calls the resource method for the
HTTP verb and turns the result into the response. This project models the four
pieces of logic inside the controller. The framework around them is replaced by
explicit inputs.

- **Resource-name resolution** (`resolution.dfy`). The name is normalised:
  lower-cased, `ucfirst`, then hyphens removed. An empty name is a 400. The
  directory is lower-cased and gets a trailing `\` unless PHP's `empty()` holds.
  This gives exactly two candidates, `app\resources\v1\<dir>\<Name>` and the same
  followed by `\<Name>`. They are tried in order against a registry of classes
  that stands in for `class_exists` and `instanceof`. The first candidate that
  exists is the one chosen. If no candidate exists, or the chosen class lacks
  `RestInterface`, the result is a 501.
- **Input binding** (`binding.dfy`). The input-data object is an `InputContainer`
  class with its field names and a field map, and it is updated in place. The
  binder indexes fields by lower-cased name. It assigns every indexed field
  whose key is set in the lower-cased body, and drops that field from the index.
  It then assigns the fields still indexed from the lower-cased query string.
  The choice between this default binding and a custom `…HttpFiller` class is
  modelled in `Controller.Apiv1Controller.InitResourceObject`.
- **Body decoding** (`Binding.DecodedBody`). An `empty()` raw body (`""` or
  `"0"`) is an empty array. Otherwise the body must decode to a PHP array. A
  parse failure, a scalar or `null` is a 400 with `Invalid JSON in the body.`
  `Json::decode` is a function parameter.
- **Response translation** (`controller.dfy`). A structured result
  (`ResourceModelResult`) with status > 201 raises an `HttpException` with that
  status and message. A structured result with status ≤ 201 sets the status
  and the body. Any other result is sent as the body, with the status left
  as it was, so `create` keeps the 201 it set. The codes are HTTP status codes:
  201 is section 15.3.2, 400 is section 15.5.1 and 501 is section 15.6.2 of
  RFC 9110.

`php.dfy` states the PHP builtins the code relies on: `strtolower`, `ucfirst`,
`str_replace`, `empty()` on strings, `array_change_key_case` (later entries win
on key collisions) and `isset` (false for `null`). `errors.dfy` holds the
exception values and the status constants.

Two behaviours of the code are easy to misread:
- The binder does not consume body *keys*. It removes the matched *field* from
  its index, so the query string cannot overwrite that field.
- `"0"` counts as an empty name (400), an empty directory and an empty body,
  through PHP's `empty()`.

## Model

| member | source | states |
|---|---|---|
| `Php.ToLower` | Apiv1Controller.php:174-175 | strtolower yields one character for each character of its input |
| `Php.ToLowerAt` | Apiv1Controller.php:174-175 | strtolower lower-cases each character on its own, and no ASCII capital is left |
| `Php.Without` | Apiv1Controller.php:177 | str_replace of `-` by `''` leaves no hyphen and keeps every other character with its multiplicity; a non-hyphen first character stays first |
| `Php.WithoutAppend` | Apiv1Controller.php:177 | str_replace works piecewise over a concatenation, so the characters it keeps stay in their order |
| `Php.WithoutAbsent` | Apiv1Controller.php:177 | a string with no hyphen is left exactly as it is |
| `Php.UcFirst` | Apiv1Controller.php:175 | ucfirst replaces a lower-case ASCII first letter by its own capital and keeps the length and every other character |
| `Php.IsEmptyString` | Apiv1Controller.php:178-181 | empty() on a string holds exactly for `""` and `"0"`, a string of at most one character, all `0` |
| `Php.Isset` | Apiv1Controller.php:281 | isset is false for a missing key, and for a present key exactly when its value is null |
| `Php.ChangeKeyCaseLower` | Apiv1Controller.php:277 | the keys of array_change_key_case are exactly the lowered keys of the input entries |
| `Php.ChangeKeyCaseLast` | Apiv1Controller.php:288 | under a lowered key, array_change_key_case keeps the value of the last entry with that key |
| `Resolution.QueryParam` | Apiv1Controller.php:174-175 | getQueryParam gives the string of the last entry with exactly that key, and `""` (strtolower of null) for a missing key or a non-string value |
| `Resolution.DirSegment` | Apiv1Controller.php:174-180 | the directory segment is empty exactly when the directory is empty(); otherwise it is the directory lower-cased character by character, then `\` |
| `Resolution.NormalName` | Apiv1Controller.php:175-177 | the normalised name holds no hyphen and is no longer than the raw name |
| `Resolution.NormalNameShape` | Apiv1Controller.php:175-177 | the normalised name has no hyphen and no capital after the first character; its first character is a capital exactly when the raw name starts with a letter |
| `Resolution.NormalNamePlain` | Apiv1Controller.php:175-177 | a hyphen-free name keeps its length; its first character becomes the capital of its lower-case form and every later character is lower-cased |
| `Resolution.NormalNameSplit` | Apiv1Controller.php:175-177 | the part after a hyphen is appended lower-cased and without its hyphens, right after the normalised part before it |
| `Resolution.LeadingHyphenStaysLowerCase` | Apiv1Controller.php:175-177 | ucfirst runs before the hyphens are removed, so `-x` normalises to lower-cased `x` with no capital |
| `Resolution.ZeroDirIsDropped` | Apiv1Controller.php:178-180 | a directory of `"0"` is empty() and gives the same candidates as no directory |
| `Resolution.CandidatesForEmptyNames` | Apiv1Controller.php:181-183 | names `"0"`, `"-"` and `""` are rejected as empty |
| `Resolution.ResourceClassCandidates` | Apiv1Controller.php:172-191 | a 400 `Bad Request` exactly when the normalised name is empty(); otherwise exactly two candidates, namespace + directory segment + name, and that + `\` + name |
| `Resolution.FirstIn` | Apiv1Controller.php:201-206 | the chosen class exists and is a candidate; nothing is chosen exactly when no candidate exists |
| `Resolution.FirstInIsFirst` | Apiv1Controller.php:201-206 | an existing candidate preceded only by absent ones is the one chosen |
| `Resolution.FindResourceClass` | Apiv1Controller.php:201-206 | the loop with `break` returns the first existing candidate |
| `Resolution.ResolveClass` | Apiv1Controller.php:199-213 | a resolved class exists and implements RestInterface |
| `Resolution.ResolveByCandidates` | Apiv1Controller.php:201-213 | the first candidate decides whenever it exists, a 501 if it lacks RestInterface even when the second would qualify; the second is used only when the first is absent; neither existing is 501 `Resource is absent.`; an empty name is 400 |
| `Resolution.CustomFiller` | Apiv1Controller.php:232-245 | a custom filler is chosen exactly when the input-data class name + `HttpFiller` exists and implements InputDataFiller |
| `Binding.DecodedBody` | Apiv1Controller.php:321-339 | an empty() body is an empty array; otherwise success exactly when the body decodes to an array, which is returned; every failure is 400 `Invalid JSON in the body.` |
| `Binding.ZeroBodyIsEmpty` | Apiv1Controller.php:325-327 | a raw body of `"0"` is empty() and decodes to the empty array, whatever the decoder would say |
| `Binding.FieldIndex` | Apiv1Controller.php:271-275 | every lowered field name is indexed, and each index entry names a field whose lowered name is the key |
| `Binding.FieldIndexPicksLast` | Apiv1Controller.php:273-275 | an index entry names the last field, in declaration order, with that lowered name |
| `Binding.FieldIndexOfLast` | Apiv1Controller.php:273-275 | a field no later field collides with is its own index entry |
| `Binding.FieldIndexShadowed` | Apiv1Controller.php:273-275 | a field followed by a field with the same lowered name is not indexed |
| `Binding.BuildFieldIndex` | Apiv1Controller.php:271-275 | the loop over get_object_vars builds the field index |
| `Binding.Bind` | Apiv1Controller.php:269-295 | default binding keeps the container's set of fields |
| `Binding.BindFromBody` | Apiv1Controller.php:277-286 | a field takes the non-null value of the last body entry matching it case-insensitively, whatever the query holds |
| `Binding.BindFromQuery` | Apiv1Controller.php:288-294 | a field the body does not set, by absence or by null, takes the non-null value of the last matching query entry |
| `Binding.NullBodyValueIsUnset` | Apiv1Controller.php:281 | a body key whose last value is null is not set, so it falls through to the query |
| `Binding.BindUnmatched` | Apiv1Controller.php:280-294 | a field that neither the lowered body nor the lowered query sets (no matching key, or only null under it) keeps its prior value |
| `Binding.BindIgnoresForeignBodyKey` | Apiv1Controller.php:277-286 | an extra body entry whose key matches no field case-insensitively leaves the whole binding unchanged |
| `Binding.BindIgnoresForeignQueryKey` | Apiv1Controller.php:288-294 | an extra query entry whose key matches no field case-insensitively leaves the whole binding unchanged |
| `Binding.BindIgnoresForeignKey` | Apiv1Controller.php:279-294 | an extra body or query entry whose key matches no field case-insensitively leaves the whole binding unchanged |
| `Binding.BindShadowedField` | Apiv1Controller.php:273-294 | of two fields whose names differ only in case, the earlier keeps its prior value |
| `Binding.AssignFromBody` | Apiv1Controller.php:279-286 | the body loop assigns each indexed field set in the body and leaves exactly the others in the index |
| `Binding.AssignFromQuery` | Apiv1Controller.php:288-294 | the query loop assigns each field still indexed that the query sets, and nothing else |
| `Binding.FillInputDataContainer` | Apiv1Controller.php:269-295 | a body decoding error is returned with the container untouched; otherwise the container's values become `Bind` of the old values, the body and the query |
| `Binding.InputContainer.constructor` | Apiv1Controller.php:304-313 | a fresh input-data object holds the declared fields with their defaults |
| `Binding.FieldValuesAt` | Apiv1Controller.php:304-313 | with distinct field names, every declared field holds its own default value |
| `Controller.Verbs` | Apiv1Controller.php:250-260 | verbs() has one entry for each of the six actions, and each admits exactly one HTTP method |
| `Controller.VerbTable` | Apiv1Controller.php:250-260 | index and view admit GET, create POST, update PATCH, delete DELETE and upsert PUT, one verb each; two actions share a verb only for index and view, on GET |
| `Controller.Translate` | Apiv1Controller.php:148-164 | a raise happens exactly for a structured result above 201 and carries its status and message; a structured result that is sent has status ≤ 201 and its body; a raw result is sent with the status unchanged |
| `Controller.StatusBeforeSend` | Apiv1Controller.php:87 | the status is 201 after create sets it; every other action finds the status unchanged |
| `Controller.ActionStatus` | Apiv1Controller.php:85-139 | after create, a raw result is sent with 201; the other actions keep the status already set; nothing above 201 is sent unless it was set before |
| `Controller.Apiv1Controller.InitResourceObject` | Apiv1Controller.php:199-223 | the class is resolved from the `resourceDir` and `resourceName` query parameters; resolution errors, the missing input-data class and body errors are returned with the controller unchanged; otherwise the resource object holds the resolved class and, for a BaseResourceModel, a fresh input-data object that either went to the custom filler or holds `Bind` of its defaults |
| `Controller.Apiv1Controller.SendResponse` | Apiv1Controller.php:148-164 | the response becomes what `Translate` gives and is sent, or the exception is returned and the response is untouched |
| `Controller.Apiv1Controller.RunAction` | Apiv1Controller.php:85-139 | create sets 201 before sending; every action's response follows `Translate`; when sending raises, create's 201 stays |

## Left out

- The Yii framework: `init`, `behaviors`, the verb filter's enforcement, `Yii::$app->getResponse()`, the request object and `Response::send`. These are foreign calls. The response is a `Response` object with a status, data and a sent flag. The request is the explicit parameters `rawBody` and `query`; the resource directory and name are read from `query`, which the binder also uses.
- Reflection: `class_exists`, `new $className`, `instanceof` and `get_object_vars` are modelled as a `Registry` of known classes. Each entry records its capabilities and its public fields with their defaults. PHP looks up class names case-insensitively; the registry uses exact names.
- `Json::decode` is a function parameter `decode`. Its result is a parse failure or a PHP value. Numeric JSON object keys are expected as integer keys, as PHP stores them.
- The resource methods (`create`, `index`, …) are external code. Their result is a parameter of `RunAction`.
- Controller.Apiv1Controller.InitResourceObject: it does not model what a custom `InputDataFiller::fill` writes. That body is external code. The model records which filler received the object and leaves the object's fields at their defaults.
- The access-control middleware in `behaviors` is commented out in the source, so it is not modelled.
- A missing `resourceDir` or `resourceName` parameter is modelled as `""`, which is what `strtolower(null)` yields. An array-valued parameter makes `strtolower` fail in PHP; that case is not modelled, and `Resolution.QueryParam` treats it as missing.
- `strtolower` and `ucfirst` are modelled on ASCII letters only. Non-ASCII characters are left unchanged, as in PHP 8.
- Floating-point JSON numbers are not represented in `Value`. The binder only distinguishes null from non-null values.
- The framework's own status-code validation in `Response::setStatusCode` is not modelled. It rejects codes below 100 or from 600 up.
- The `resourceClass` field of the controller is never assigned in the source and is not modelled.
- How the framework renders a raised exception as an error response is not modelled. `err` carries the exception's status and message.
