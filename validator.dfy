// The request validator of internal/validator: an error map from field name to
// message in which the first message recorded for a field is kept.
module Validator {

  type Errors = map<string, string>

  /** The map after AddError(key, message): a message is recorded only for a
      field that has none yet. */
  function WithError(errs: Errors, key: string, message: string): (r: Errors)
    ensures r.Keys == errs.Keys + {key}
    ensures forall k :: k in errs ==> r[k] == errs[k]
    ensures key !in errs ==> r[key] == message
  {
    if key in errs then errs else errs[key := message]
  }

  /** The map after Check(ok, key, message). */
  function Checked(errs: Errors, ok: bool, key: string, message: string): (r: Errors)
    ensures ok ==> r == errs
    ensures !ok ==> r == WithError(errs, key, message)
  {
    if ok then errs else WithError(errs, key, message)
  }

  /** A message, once recorded, survives any later Check. */
  lemma CheckedKeeps(errs: Errors, ok: bool, key: string, message: string, k: string)
    requires k in errs
    ensures k in Checked(errs, ok, key, message) && Checked(errs, ok, key, message)[k] == errs[k]
  {
  }

  /** The Validator object: its Errors map is updated in place. */
  class Validator {
    var errors: Errors

    /** New(): an empty error map. */
    constructor New()
      ensures errors == map[] && Valid()
    {
      errors := map[];
    }

    /** Valid() holds iff no error has been recorded (len(Errors) == 0). */
    predicate Valid()
      reads this
    {
      errors == map[]
    }

    method AddError(key: string, message: string)
      modifies this
      ensures errors == WithError(old(errors), key, message)
      ensures !Valid()
    {
      if key !in errors {
        errors := errors[key := message];
      }
    }

    method Check(ok: bool, key: string, message: string)
      modifies this
      ensures errors == Checked(old(errors), ok, key, message)
      ensures ok ==> errors == old(errors)
    {
      if !ok {
        AddError(key, message);
      }
    }
  }

  /** PermittedValue(value, permitted...): is the value one of the permitted ones. */
  function PermittedValue<T(==)>(value: T, permitted: seq<T>): (r: bool)
    ensures r <==> exists i :: 0 <= i < |permitted| && permitted[i] == value
    ensures permitted == [] ==> !r
  {
    if permitted == [] then false
    else permitted[0] == value || PermittedValue(value, permitted[1..])
  }

  /** Unique(values): no value occurs twice. */
  function Unique<T(==)>(values: seq<T>): (r: bool)
    ensures r <==> forall i, j :: 0 <= i < j < |values| ==> values[i] != values[j]
  {
    if values == [] then true
    else !PermittedValue(values[0], values[1..]) && Unique(values[1..])
  }
}
