/**
 * The HTTP response: a status from a fixed whitelist mirrored into an
 * `API-Status` header, a header map and the encoded content. Sending records
 * the content and enters the terminal "sent" state (the process exits).
 */
module Responses {
  import opened Wrappers
  import opened PhpArrays
  import opened PhpValues
  import opened Exceptions
  import opened Externals

  const STATUS_OK := "200 OK"
  const STATUS_NOT_MODIFIED := "304 Not Modified"
  const STATUS_BAD_REQUEST := "400 Bad Request"
  const STATUS_METHOD_NOT_ALLOWED := "405 Method Not Allowed"
  const STATUS_ERROR := "500 Internal Server Error"

  const API_STATUS := "API-Status"
  const RESPONSE_FILE := "src/MdeService/Response.php"

  /** The five statuses `setStatus` accepts. */
  predicate IsKnownStatus(s: string) {
    s == STATUS_OK || s == STATUS_NOT_MODIFIED || s == STATUS_BAD_REQUEST
    || s == STATUS_METHOD_NOT_ALLOWED || s == STATUS_ERROR
  }

  function UnknownStatusFault(s: string): Fault {
    Fault("InvalidArgumentException", "Unknown response status \"" + s + "\"!", RESPONSE_FILE, 211)
  }

  function EncodeFault(code: int): Fault {
    Fault("Exception", "An error occurred while trying to encode data to JSON [code \"" + IntToString(code) + "\"]!",
          "src/MdeService/Helper.php", 166)
  }

  /** `isset($h[$name]) && !empty($h[$name])` on a header map. */
  predicate HeaderSet(h: PArray<string>, name: string) {
    Get(h, StrKey(name)).Some? && !EmptyString(Get(h, StrKey(name)).value)
  }

  class Response {
    var status: Option<string>
    var headers: PArray<string>
    var content: Option<string>
    /** The response has been emitted and the process has exited. */
    var sent: bool

    ghost predicate Valid()
      reads this
    {
      WellFormed(headers) && (status.Some? ==> IsKnownStatus(status.value)) && (sent ==> status.Some?)
    }

    /** The `API-Status` header holds the current status. */
    ghost predicate StatusMirrored()
      reads this
    {
      status.Some? ==> Get(headers, StrKey(API_STATUS)) == status
    }

    constructor()
      ensures Valid() && StatusMirrored()
      ensures status.None? && headers == Empty() && content.None? && !sent
    {
      status := None;
      headers := Empty();
      content := None;
      sent := false;
    }

    /** Accepts exactly the five known statuses and mirrors the status into `API-Status`; anything else throws. */
    method SetStatus(s: string) returns (thrown: Option<Fault>)
      requires Valid()
      modifies this
      ensures Valid()
      ensures thrown.None? <==> IsKnownStatus(s)
      ensures thrown.None? ==> status == Some(s) && headers == Put(old(headers), StrKey(API_STATUS), s)
      ensures thrown.None? ==> StatusMirrored()
      ensures thrown.Some? ==> thrown.value == UnknownStatusFault(s)
      ensures thrown.Some? ==> status == old(status) && headers == old(headers)
      ensures content == old(content) && sent == old(sent)
    {
      if IsKnownStatus(s) {
        status := Some(s);
        headers := Put(headers, StrKey(API_STATUS), s);
        thrown := None;
      } else {
        thrown := Some(UnknownStatusFault(s));
      }
    }

    function GetStatus(): Option<string>
      reads this
    {
      status
    }

    /** False until the first successful `SetStatus`. */
    predicate HasStatus()
      reads this
    {
      status.Some?
    }

    /** `getStatus() == $s`: PHP's `null == ''` makes the empty string match an unset status. */
    predicate IsStatus(s: string)
      reads this
    {
      match status
      case Some(t) => t == s
      case None => s == ""
    }

    /** Replaces the whole header map. */
    method SetHeaders(h: PArray<string>)
      modifies this
      ensures headers == h
      ensures status == old(status) && content == old(content) && sent == old(sent)
    {
      headers := h;
    }

    /** Writes one header and leaves every other header as it was. */
    method SetHeader(name: string, value: string)
      requires Valid()
      modifies this
      ensures Valid()
      ensures headers == Put(old(headers), StrKey(name), value)
      ensures status == old(status) && content == old(content) && sent == old(sent)
      ensures name != API_STATUS && old(StatusMirrored()) ==> StatusMirrored()
    {
      headers := Put(headers, StrKey(name), value);
    }

    /** A header counts as present only when it is set and not PHP-empty ("" or "0"). */
    predicate HasHeader(name: string)
      reads this
    {
      HeaderSet(headers, name)
    }

    function GetHeader(name: string): (r: Option<string>)
      reads this
      ensures r.Some? <==> HasHeader(name)
      ensures r.Some? ==> Get(headers, StrKey(name)) == r && !EmptyString(r.value)
    {
      if HasHeader(name) then Get(headers, StrKey(name)) else None
    }

    method SetContent(c: string)
      modifies this
      ensures content == Some(c)
      ensures status == old(status) && headers == old(headers) && sent == old(sent)
    {
      content := Some(c);
    }

    function GetContent(): Option<string>
      reads this
    {
      content
    }

    /** Before the headers go out, a response without a status gets "200 OK". */
    method FetchHeaders()
      requires Valid()
      modifies this
      ensures Valid() && HasStatus()
      ensures old(status).Some? ==> status == old(status) && headers == old(headers)
      ensures old(status).None? ==> status == Some(STATUS_OK) && headers == Put(old(headers), StrKey(API_STATUS), STATUS_OK)
      ensures old(StatusMirrored()) ==> StatusMirrored()
      ensures content == old(content) && sent == old(sent)
    {
      if !HasStatus() {
        var _ := SetStatus(STATUS_OK);
      }
    }

    /** Emits the headers and the content, then the process exits. */
    method Fetch()
      requires Valid()
      modifies this
      ensures Valid() && HasStatus() && sent
      ensures old(status).Some? ==> status == old(status) && headers == old(headers)
      ensures old(status).None? ==> status == Some(STATUS_OK) && headers == Put(old(headers), StrKey(API_STATUS), STATUS_OK)
      ensures old(StatusMirrored()) ==> StatusMirrored()
      ensures content == old(content)
    {
      FetchHeaders();
      sent := true;
    }

    /**
     * JSON-encodes the data, stores it as the content and emits the response;
     * an encoding failure throws before anything is stored or emitted.
     */
    method Send(data: Value, encode: Value -> Encoded) returns (thrown: Option<Fault>)
      requires Valid() && !sent
      modifies this
      ensures Valid()
      ensures old(StatusMirrored()) ==> StatusMirrored()
      ensures encode(data).Encoded? ==> thrown.None? && sent && content == Some(encode(data).json) && HasStatus()
      ensures encode(data).Encoded? && old(status).Some? ==> status == old(status) && headers == old(headers)
      ensures encode(data).Encoded? && old(status).None? ==>
        status == Some(STATUS_OK) && headers == Put(old(headers), StrKey(API_STATUS), STATUS_OK)
      ensures encode(data).EncodeError? ==> thrown == Some(EncodeFault(encode(data).code))
      ensures encode(data).EncodeError? ==>
        !sent && status == old(status) && headers == old(headers) && content == old(content)
    {
      match encode(data)
      case EncodeError(code) =>
        thrown := Some(EncodeFault(code));
      case Encoded(json) =>
        SetContent(json);
        Fetch();
        thrown := None;
    }
  }

  /**
   * The two status queries agree: before any status is set only the empty
   * string matches (`null == ''`), and once one is set, among the known
   * statuses exactly that one matches.
   */
  lemma StatusQueries(r: Response)
    requires r.Valid()
    ensures r.IsStatus("") <==> !r.HasStatus()
    ensures !r.HasStatus() ==> forall s :: IsKnownStatus(s) ==> !r.IsStatus(s)
    ensures r.HasStatus() ==> forall s :: IsKnownStatus(s) ==> (r.IsStatus(s) <==> r.status == Some(s))
  {
  }
}
