/** ExecuteValidate of cmd/validate/validate.go: check the arguments, create
    the service client, choose the result form, then send one request per
    number in order and stop at the first failure. The service is a parameter:
    a function from request to response or error message. */
module Validation {
  import opened Base
  import opened ValidateResult
  import opened CliArgs

  /** Whether the validation-service client could be created (NewPinpointWrapper). */
  datatype ClientSetup = ClientReady | ClientFailed(message: string)

  /** The state left by the request loop: the aggregate built so far, the
      error that stopped the loop if any, and the requests sent, in order. */
  datatype Batch = Batch(partial: Aggregate, failure: Option<Error>, sent: seq<Request>)

  /** What ExecuteValidate returns. As with Go's named results, a failing
      call still leaves the partial aggregate in `result`. */
  datatype Outcome = Outcome(result: Option<Aggregate>, err: Option<Error>, sent: seq<Request>)

  /** The responses of requests that all succeeded. */
  function Responses(service: Request -> Result<Response, string>, requests: seq<Request>): (rs: seq<Response>)
    requires forall i :: 0 <= i < |requests| ==> service(requests[i]).Ok?
    ensures |rs| == |requests|
    ensures forall i :: 0 <= i < |rs| ==> rs[i] == service(requests[i]).value
  {
    seq(|requests|, i requires 0 <= i < |requests| => service(requests[i]).value)
  }

  /** The index of the first request whose call fails, or the number of
      requests when none fails. */
  function FirstFailure(service: Request -> Result<Response, string>, requests: seq<Request>): (k: nat)
    ensures k <= |requests|
    ensures forall i :: 0 <= i < k ==> service(requests[i]).Ok?
    ensures k < |requests| ==> service(requests[k]).Err?
    decreases |requests|
  {
    if |requests| == 0 then 0
    else if service(requests[0]).Err? then 0
    else 1 + FirstFailure(service, requests[1..])
  }

  /** Only one index can be the first failure. */
  lemma FirstFailureUnique(service: Request -> Result<Response, string>, requests: seq<Request>, k: nat)
    requires k <= |requests|
    requires forall i :: 0 <= i < k ==> service(requests[i]).Ok?
    requires k < |requests| ==> service(requests[k]).Err?
    ensures FirstFailure(service, requests) == k
  {
  }

  /** The responses of a prefix whose calls succeed, split at the first one. */
  lemma ResponsesCons(service: Request -> Result<Response, string>, requests: seq<Request>, k: nat)
    requires 0 < k <= |requests|
    requires forall i :: 0 <= i < k ==> service(requests[i]).Ok?
    ensures Responses(service, requests[..k])
      == [service(requests[0]).value] + Responses(service, requests[1..][..k - 1])
  {
  }

  /** The request loop, as a fold over the requests. Let k be the first
      failing request: exactly the responses before k were added; if there is
      no failure every request was sent and the outcome has no error,
      otherwise requests 0..k were sent and the call's error is the outcome.
      The aggregate's settings never change. */
  function SendAll(service: Request -> Result<Response, string>, requests: seq<Request>, agg: Aggregate): (b: Batch)
    ensures b.partial.detail == agg.detail && b.partial.filter == agg.filter
    ensures var k := FirstFailure(service, requests);
      && b.partial == AddAll(agg, Responses(service, requests[..k]))
      && (k == |requests| ==> b.failure == None && b.sent == requests)
      && (k < |requests| ==>
            b.failure == Some(ServiceFailure(service(requests[k]).error)) && b.sent == requests[..k + 1])
    decreases |requests|
  {
    if |requests| == 0 then Batch(agg, None, [])
    else
      match service(requests[0])
      case Err(e) =>
        Batch(agg, Some(ServiceFailure(e)), [requests[0]])
      case Ok(r) =>
        var b := SendAll(service, requests[1..], Add(agg, r));
        var k := FirstFailure(service, requests);
        ResponsesCons(service, requests, k);
        assert [requests[0]] + requests[1..] == requests;
        assert requests[1..][..k - 1] == requests[1..k];
        b.(sent := [requests[0]] + b.sent)
  }

  /** ExecuteValidate. */
  function ExecuteValidate(args: Args, client: ClientSetup, service: Request -> Result<Response, string>): (out: Outcome)
    // no numbers: an error, and no request is sent
    ensures !Validate(args) ==> out == Outcome(None, Some(InvalidArgs), [])
    // no client: its error, before any request is sent
    ensures Validate(args) && client.ClientFailed? ==>
      out == Outcome(None, Some(ClientFailure(client.message)), [])
    // otherwise the flags choose the form, and the loop runs up to the first failure
    ensures Validate(args) && client.ClientReady? ==>
      var requests := PhoneNumberValidateRequests(args);
      var k := FirstFailure(service, requests);
      && out.result.Some?
      && out.result.value.detail == (if args.short then Short else Long)
      && (out.result.value.filter == OnlyInvalid <==> args.onlyInvalid)
      && out.result.value == AddAll(New(out.result.value.detail, out.result.value.filter),
                                    Responses(service, requests[..k]))
      && (k == |requests| ==> out.err.None? && out.sent == requests)
      && (k < |requests| ==>
            out.err == Some(ServiceFailure(service(requests[k]).error)) && out.sent == requests[..k + 1])
  {
    if !Validate(args) then Outcome(None, Some(InvalidArgs), [])
    else if client.ClientFailed? then Outcome(None, Some(ClientFailure(client.message)), [])
    else
      var start := if args.short then NewShortValidateResult(args.onlyInvalid) else NewLongValidateResult(args.onlyInvalid);
      var b := SendAll(service, PhoneNumberValidateRequests(args), start);
      Outcome(Some(b.partial), b.failure, b.sent)
  }

  /** The requests sent are always a prefix of the request list. */
  lemma SentIsPrefix(args: Args, client: ClientSetup, service: Request -> Result<Response, string>)
    ensures ExecuteValidate(args, client, service).sent <= PhoneNumberValidateRequests(args)
    ensures ExecuteValidate(args, client, service).err.None? ==>
      ExecuteValidate(args, client, service).sent == PhoneNumberValidateRequests(args)
  {
  }

  /** Fail-fast: when the call for request k is the first to fail, its error
      is the outcome and requests 0..k, and no others, were sent. */
  lemma FailFast(args: Args, client: ClientSetup, service: Request -> Result<Response, string>, k: nat)
    requires Validate(args) && client.ClientReady?
    requires k < |args.phoneNumbers|
    requires forall i :: 0 <= i < k ==> service(PhoneNumberValidateRequests(args)[i]).Ok?
    requires service(PhoneNumberValidateRequests(args)[k]).Err?
    ensures ExecuteValidate(args, client, service).err
      == Some(ServiceFailure(service(PhoneNumberValidateRequests(args)[k]).error))
    ensures ExecuteValidate(args, client, service).sent == PhoneNumberValidateRequests(args)[..k + 1]
  {
    FirstFailureUnique(service, PhoneNumberValidateRequests(args), k);
  }

  /** When every call succeeds, the result is a fresh aggregate with every
      response added in request order. */
  lemma AllSucceed(args: Args, client: ClientSetup, service: Request -> Result<Response, string>)
    requires Validate(args) && client.ClientReady?
    requires forall i :: 0 <= i < |args.phoneNumbers| ==> service(PhoneNumberValidateRequests(args)[i]).Ok?
    ensures ExecuteValidate(args, client, service).err.None?
    ensures ExecuteValidate(args, client, service).sent == PhoneNumberValidateRequests(args)
    ensures ExecuteValidate(args, client, service).result
      == Some(AddAll(New(if args.short then Short else Long, FilterFor(args.onlyInvalid)),
                     Responses(service, PhoneNumberValidateRequests(args))))
  {
    var requests := PhoneNumberValidateRequests(args);
    FirstFailureUnique(service, requests, |requests|);
    assert requests[..|requests|] == requests;
  }
}
