/**
 The constructor's normalisation of a legacy configuration: a top-level
 `userName`/`password` pair is moved into an `authentication` block of type
 "default", which is the shape the driver expects.
 */
module Config {
  import opened JsValues

  /** A configuration object: property name to value. */
  type Config = map<string, JsValue>

  /** The old shape: no authentication block, and both legacy credentials truthy. */
  predicate IsLegacy(c: Config) {
    && LooselyUndefined(Property(c, "authentication"))
    && Truthy(Property(c, "userName"))
    && Truthy(Property(c, "password"))
  }

  /** The authentication block synthesised from a legacy credential pair. */
  function DefaultAuthentication(userName: JsValue, password: JsValue): JsValue {
    Obj(map[
      "type" := Str("default"),
      "options" := Obj(map["userName" := userName, "password" := password])
    ])
  }

  /** The configuration the adapter keeps after construction. */
  function Normalize(c: Config): (r: Config)
    ensures IsLegacy(c) ==>
      && r.Keys == c.Keys - {"userName", "password"} + {"authentication"}
      && r["authentication"] == DefaultAuthentication(c["userName"], c["password"])
      && forall k :: k in r && k != "authentication" ==> r[k] == c[k]
    ensures !IsLegacy(c) ==> r == c
  {
    if IsLegacy(c) then
      (c - {"userName", "password"})["authentication" := DefaultAuthentication(c["userName"], c["password"])]
    else
      c
  }

  /** A normalised configuration is never in the legacy shape, whatever the input. */
  lemma NormalizedIsNotLegacy(c: Config)
    ensures !IsLegacy(Normalize(c))
  {
  }

  /** Constructing an adapter from an already normalised configuration changes nothing. */
  lemma NormalizeIdempotent(c: Config)
    ensures Normalize(Normalize(c)) == Normalize(c)
  {
    NormalizedIsNotLegacy(c);
  }

  /** The credentials survive normalisation: the synthesised block carries exactly the
      legacy userName and password, and nothing else of the configuration is lost. */
  lemma NormalizeKeepsCredentials(c: Config)
    requires IsLegacy(c)
    ensures var auth := Property(Normalize(c), "authentication");
      && auth.Obj?
      && Property(auth.fields, "type") == Str("default")
      && Property(auth.fields, "options").Obj?
      && Property(Property(auth.fields, "options").fields, "userName") == Property(c, "userName")
      && Property(Property(auth.fields, "options").fields, "password") == Property(c, "password")
  {
  }
}
