/** The error enumeration of the networking layer and its two accessors (RestError.swift). */
module RestErrors {
  import opened Wrappers

  /** The seven cases of `RestError`; `http` carries an optional status code and an optional message. */
  datatype RestError =
    | NoResponse
    | NoData
    | SaveData
    | Serialization
    | Encoding
    | BadURL
    | Http(statusCode: Option<int>, message: Option<string>)

  /** `statusCode`: present only for `http`, and then exactly the code the case carries. */
  function StatusCode(e: RestError): (r: Option<int>)
    ensures r.Some? ==> e.Http?
    ensures e.Http? ==> r == e.statusCode
    ensures !e.Http? ==> r == None
  {
    match e
    case Http(code, _) => code
    case _ => None
  }

  /** `errorDescription`: the message of an `http` case, a fixed text for every other case. */
  function ErrorDescription(e: RestError): (r: Option<string>)
    ensures e.Http? ==> r == e.message
    ensures !e.Http? ==> r.Some? && |r.value| > 0
  {
    match e
    case NoResponse => Some("No response was received from the server")
    case NoData => Some("No data was returned by the server")
    case SaveData => Some("Failed to save the downloaded data. The specified file may already exist or the disk may be full.")
    case Serialization => Some("Failed to serialize the data")
    case Encoding => Some("Failed to replace special characters in the URL path with percent encoded characters")
    case BadURL => Some("Malformed URL")
    case Http(_, message) => message
  }

  /** The length of each fixed description; the six lengths differ. */
  function DescriptionLength(e: RestError): nat
    requires !e.Http?
  {
    match e
    case NoResponse => 40
    case NoData => 34
    case SaveData => 97
    case Serialization => 28
    case Encoding => 84
    case BadURL => 13
  }

  lemma DescriptionHasLength(e: RestError)
    requires !e.Http?
    ensures |ErrorDescription(e).value| == DescriptionLength(e)
  {
  }

  /** The six fixed descriptions are pairwise distinct: no two non-`http` errors read alike. */
  lemma DescriptionsDistinct(a: RestError, b: RestError)
    requires !a.Http? && !b.Http? && a != b
    ensures ErrorDescription(a) != ErrorDescription(b)
  {
    DescriptionHasLength(a);
    DescriptionHasLength(b);
  }
}
