/** The application error type `AppError`, its `Display` text and its
    mapping to an HTTP response (`IntoResponse`). */
module Errors {

  datatype AppError =
    | DatabaseError(detail: string)
    | AIError(detail: string)
    | ConfigError(detail: string)
    | ValidationError(detail: string)
    | ParseError(detail: string)
    | SafetyGuardError

  /** The `#[error(...)]` text of each variant. */
  function Display(e: AppError): string
  {
    match e
    case DatabaseError(d) => "Database error: " + d
    case AIError(d) => "AI Provider error: " + d
    case ConfigError(d) => "Configuration error: " + d
    case ValidationError(d) => "Validation error: " + d
    case ParseError(d) => "Parsing error: " + d
    case SafetyGuardError => "Admin operation requires force flag"
  }

  const BadRequest: nat := 400
  const Forbidden: nat := 403
  const InternalServerError: nat := 500

  /** A JSON object, as its key/value pairs in order. */
  datatype HttpResponse = HttpResponse(status: nat, body: seq<(string, string)>)

  /** `into_response`: the body is always the one-key object
      `{"error": message}`. Validation errors are 400, the safety guard is
      403, everything else 500; configuration errors keep their own text,
      while database, provider and parse errors are prefixed with
      "Internal Error: ". */
  function IntoResponse(e: AppError): (r: HttpResponse)
    ensures r.status == BadRequest <==> e.ValidationError?
    ensures r.status == Forbidden <==> e.SafetyGuardError?
    ensures r.status == InternalServerError <==> !e.ValidationError? && !e.SafetyGuardError?
    ensures |r.body| == 1 && r.body[0].0 == "error"
    ensures e.ValidationError? || e.SafetyGuardError? || e.ConfigError? ==> r.body[0].1 == Display(e)
    ensures e.DatabaseError? || e.AIError? || e.ParseError? ==> r.body[0].1 == "Internal Error: " + Display(e)
  {
    var (status, message) :=
      match e
      case ValidationError(_) => (BadRequest, Display(e))
      case SafetyGuardError => (Forbidden, Display(e))
      case ConfigError(_) => (InternalServerError, Display(e))
      case _ => (InternalServerError, "Internal Error: " + Display(e));
    HttpResponse(status, [("error", message)])
  }

  /** A Display text names exactly one error: the variant and its detail can
      be read back from it. */
  lemma DisplayInjective(a: AppError, b: AppError)
    requires Display(a) == Display(b)
    ensures a == b
  {
    var s := Display(a);
    if a.SafetyGuardError? || b.SafetyGuardError? {
      assert s[1] == Display(b)[1];
    } else {
      var p := Prefix(a);
      var q := Prefix(b);
      assert s == p + a.detail && s == q + b.detail;
      assert s[0] == p[0] && s[0] == q[0];
      assert s[1] == p[1] && s[1] == q[1];
      assert p == q;
      assert a.detail == s[|p|..] == b.detail;
    }
  }

  function Prefix(e: AppError): (p: string)
    requires !e.SafetyGuardError?
    ensures |p| >= 2 && Display(e) == p + e.detail
  {
    match e
    case DatabaseError(_) => "Database error: "
    case AIError(_) => "AI Provider error: "
    case ConfigError(_) => "Configuration error: "
    case ValidationError(_) => "Validation error: "
    case ParseError(_) => "Parsing error: "
  }
}
