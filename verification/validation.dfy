/** The request-validation middleware: a schema check (abstract here: a
    function from the property's current value to either the validated value
    or Joi's list of violations) whose violations become the details of a
    ValidationError, and whose validated value replaces the request property. */
module Validation {
  import opened Util
  import opened Response
  import opened ErrorHandler

  /** `schema.validate(value, { abortEarly: false, stripUnknown: true, convert: true })`:
      the validated value, or every violation found. `None` is an absent
      property (`undefined`). */
  type Schema<!V> = Option<V> -> Result<V, seq<JoiDetail>>

  /** The request object; `props` holds `body`, `query`, `params` and the like */
  class Request<V> {
    var props: map<string, V>

    constructor(props: map<string, V>)
      ensures this.props == props
    {
      this.props := props;
    }
  }

  /** `req[property]` */
  function Lookup<V>(props: map<string, V>, property: string): Option<V> {
    if property in props then Some(props[property]) else None
  }

  /** `validate(schema)` validates `req.body` unless told otherwise */
  const DefaultProperty := "body"

  /** `message.replace(/"/g, '')`: every double quote removed, nothing else */
  function StripQuotes(s: string): (r: string)
    ensures '"' !in r
    ensures multiset(r) == multiset(s)['"' := 0]
    ensures '"' !in s ==> r == s
    ensures r == Filter(s, (c: char) => c != '"')
  {
    if s == [] then []
    else
      assert s == [s[0]] + s[1..];
      (if s[0] == '"' then [] else [s[0]]) + StripQuotes(s[1..])
  }

  /** The details `validate` reports: the path joined with '.', the message
      without quotes */
  function Details(ds: seq<JoiDetail>): (r: seq<Detail>)
    ensures |r| == |ds|
    ensures forall i :: 0 <= i < |ds| ==>
              r[i].field == Join(ds[i].path, ".") && r[i].message == StripQuotes(ds[i].message)
  {
    if ds == [] then [] else [Detail(Join(ds[0].path, "."), StripQuotes(ds[0].message))] + Details(ds[1..])
  }

  /** The details `validateMultiple` reports for one property: the same,
      with the property name and a '.' in front of the field */
  function PrefixedDetails(property: string, ds: seq<JoiDetail>): (r: seq<Detail>)
    ensures |r| == |ds|
    ensures forall i :: 0 <= i < |ds| ==>
              r[i].field == property + "." + Details(ds)[i].field && r[i].message == Details(ds)[i].message
  {
    if ds == [] then []
    else [Detail(property + "." + Join(ds[0].path, "."), StripQuotes(ds[0].message))] + PrefixedDetails(property, ds[1..])
  }

  /** The middleware's details differ from the error handler's mapping of a
      Joi error only in that quotes are removed from the messages. */
  lemma DetailsAgainstHandler(ds: seq<JoiDetail>)
    ensures |Details(ds)| == |JoiToDetails(ds)|
    ensures forall i :: 0 <= i < |ds| ==>
              && Details(ds)[i].field == JoiToDetails(ds)[i].field
              && Details(ds)[i].message == StripQuotes(JoiToDetails(ds)[i].message)
  {
  }

  /** No reported message contains a double quote. */
  lemma {:induction false} DetailsUnquoted(property: string, ds: seq<JoiDetail>)
    ensures forall d :: d in Details(ds) ==> '"' !in d.message
    ensures forall d :: d in PrefixedDetails(property, ds) ==> '"' !in d.message
  {
    forall d | d in Details(ds)
      ensures '"' !in d.message
    {
      var i :| 0 <= i < |Details(ds)| && Details(ds)[i] == d;
    }
    forall d | d in PrefixedDetails(property, ds)
      ensures '"' !in d.message
    {
      var i :| 0 <= i < |PrefixedDetails(property, ds)| && PrefixedDetails(property, ds)[i] == d;
    }
  }

  /** The error `validate` and `validateMultiple` throw */
  function Failure(details: seq<Detail>): (e: AppError)
    ensures e.cls == Validation && e.statusCode == 400 && e.code == "VALIDATION_ERROR"
    ensures e.message == ValidationMessage && e.details == details
  {
    NewValidationError(Some(ValidationMessage), Some(details))
  }

  /** `validate(schema, property)(req, res, next)`: on failure the error is
      thrown and the request is untouched; on success the property is
      replaced by the validated value and `next()` runs. */
  method Validate<V>(req: Request<V>, schema: Schema<V>, property: string) returns (r: Result<(), AppError>)
    modifies req
    ensures schema(Lookup(old(req.props), property)).Err? ==>
              r == Err(Failure(Details(schema(Lookup(old(req.props), property)).error))) && req.props == old(req.props)
    ensures schema(Lookup(old(req.props), property)).Ok? ==>
              r == Ok(()) && req.props == old(req.props)[property := schema(Lookup(old(req.props), property)).value]
  {
    var checked := schema(Lookup(req.props, property));
    if checked.Err? {
      return Err(Failure(Details(checked.error)));
    }
    req.props := req.props[property := checked.value];
    return Ok(());
  }

  /** The effect of the first `k` entries of `validateMultiple`'s loop: the
      properties as rewritten so far and the details collected so far. Each
      entry validates the property's value as the earlier entries left it. */
  function RunAll<V>(props: map<string, V>, schemas: seq<(string, Schema<V>)>): (r: (map<string, V>, seq<Detail>))
  {
    if schemas == [] then (props, [])
    else
      var before := RunAll(props, schemas[..|schemas| - 1]);
      var (property, schema) := schemas[|schemas| - 1];
      match schema(Lookup(before.0, property))
      case Err(ds) => (before.0, before.1 + PrefixedDetails(property, ds))
      case Ok(v) => (before.0[property := v], before.1)
  }

  /** The property names of the entries */
  function Names<V>(schemas: seq<(string, Schema<V>)>): (r: seq<string>)
    ensures |r| == |schemas| && forall i :: 0 <= i < |schemas| ==> r[i] == schemas[i].0
  {
    if schemas == [] then [] else Names(schemas[..|schemas| - 1]) + [schemas[|schemas| - 1].0]
  }

  /** `Object.entries` never names a property twice */
  predicate DistinctNames<V>(schemas: seq<(string, Schema<V>)>) {
    forall i, j :: 0 <= i < j < |schemas| ==> schemas[i].0 != schemas[j].0
  }

  /** Every entry's details, each entry checked against the request as it
      arrived: the reference the loop is compared with */
  function ErrorsOf<V>(props: map<string, V>, schemas: seq<(string, Schema<V>)>): seq<Detail> {
    if schemas == [] then []
    else
      var (property, schema) := schemas[|schemas| - 1];
      ErrorsOf(props, schemas[..|schemas| - 1]) +
      (match schema(Lookup(props, property))
       case Err(ds) => PrefixedDetails(property, ds)
       case Ok(_) => [])
  }

  /** A property no entry names keeps its value. */
  lemma {:induction false} RunAllFrame<V>(props: map<string, V>, schemas: seq<(string, Schema<V>)>, key: string)
    requires key !in Names(schemas)
    ensures Lookup(RunAll(props, schemas).0, key) == Lookup(props, key)
  {
    if schemas != [] {
      var n := |schemas| - 1;
      assert Names(schemas[..n]) == Names(schemas)[..n];
      RunAllFrame(props, schemas[..n], key);
    }
  }

  /** With distinct names every schema sees the property as it arrived, so
      the collected details are those of every failing entry, in entry
      order: all schemas are checked before anything is thrown. */
  lemma {:induction false} RunAllErrors<V>(props: map<string, V>, schemas: seq<(string, Schema<V>)>)
    requires DistinctNames(schemas)
    ensures RunAll(props, schemas).1 == ErrorsOf(props, schemas)
  {
    if schemas != [] {
      var n := |schemas| - 1;
      RunAllErrors(props, schemas[..n]);
      assert Names(schemas[..n]) == Names(schemas)[..n];
      RunAllFrame(props, schemas[..n], schemas[n].0);
    }
  }

  /** With distinct names a property that validates is replaced by its
      validated value even when another property fails, and a property that
      fails keeps the value it arrived with. */
  lemma {:induction false} RunAllReplaced<V>(props: map<string, V>, schemas: seq<(string, Schema<V>)>, i: nat)
    requires DistinctNames(schemas) && i < |schemas|
    ensures var (property, schema) := schemas[i];
            match schema(Lookup(props, property))
            case Ok(v) => Lookup(RunAll(props, schemas).0, property) == Some(v)
            case Err(_) => Lookup(RunAll(props, schemas).0, property) == Lookup(props, property)
  {
    var n := |schemas| - 1;
    var property := schemas[i].0;
    assert Names(schemas[..n]) == Names(schemas)[..n];
    if i == n {
      RunAllFrame(props, schemas[..n], property);
    } else {
      RunAllReplaced(props, schemas[..n], i);
      assert schemas[n].0 != property;
    }
  }

  /** `validateMultiple(schemas)(req, res, next)`: validates every entry in
      turn, replacing each property that validates, and throws one
      ValidationError carrying all the details collected when there are any. */
  method ValidateMultiple<V>(req: Request<V>, schemas: seq<(string, Schema<V>)>) returns (r: Result<(), AppError>)
    modifies req
    ensures req.props == RunAll(old(req.props), schemas).0
    ensures |RunAll(old(req.props), schemas).1| > 0 ==> r == Err(Failure(RunAll(old(req.props), schemas).1))
    ensures |RunAll(old(req.props), schemas).1| == 0 ==> r == Ok(())
  {
    var allErrors: seq<Detail> := [];
    for i := 0 to |schemas|
      invariant (req.props, allErrors) == RunAll(old(req.props), schemas[..i])
    {
      assert schemas[..i + 1][..i] == schemas[..i];
      var (property, schema) := schemas[i];
      var checked := schema(Lookup(req.props, property));
      if checked.Err? {
        allErrors := allErrors + PrefixedDetails(property, checked.error);
      } else {
        req.props := req.props[property := checked.value];
      }
    }
    assert schemas[..|schemas|] == schemas;
    if |allErrors| > 0 {
      return Err(Failure(allErrors));
    }
    return Ok(());
  }
}
