/**
The two admission webhooks as the API server calls them, and a pod's way through both.
*/
module Admission {
  import opened GoSlices
  import opened Pods
  import opened Mutation
  import opened MutationLaws
  import opened Validation
  import Strconv

  const HTTP_ACCEPTED := 202
  const HTTP_BAD_REQUEST := 400
  const HTTP_FORBIDDEN := 403

  // The request as the webhook sees it: `decoded` is what json.Unmarshal makes of the
  // raw object, or the error it gives.
  datatype Decoded = Parsed(pod: Pod) | Malformed(error: string)
  datatype Request = Request(uid: string, kind: string, decoded: Decoded)

  // A patch is the pair of pods that it turns into one another.
  datatype Patch = Patch(before: Pod, after: Pod)
  datatype Response = Response(uid: string, allowed: bool, code: int, message: string, patch: Option<Patch>)

  // A review with the error returned beside it; None where the handler never returns.
  datatype Answer = Answer(response: Response, failed: bool)

  function ReviewResponse(uid: string, allowed: bool, code: int, reason: string): Response {
    Response(uid, allowed, code, reason, None)
  }

  // A patch review carries no status; the API server reads its absence as success.
  function PatchReviewResponse(uid: string, patch: Patch): Response {
    Response(uid, true, 0, "", Some(patch))
  }

  function PodOf(req: Request): Decoded {
    if req.kind != "Pod" then Malformed("only pods are supported here") else req.decoded
  }

  function ValidatePodReview(req: Request): Answer {
    match PodOf(req)
    case Malformed(error) =>
      Answer(ReviewResponse(req.uid, false, HTTP_BAD_REQUEST,
                            "could not parse pod in admission review request: " + error), true)
    case Parsed(pod) =>
      var v := Decision(pod);
      if !v.valid then Answer(ReviewResponse(req.uid, false, HTTP_FORBIDDEN, v.reason), false)
      else Answer(ReviewResponse(req.uid, true, HTTP_ACCEPTED, "valid pod"), false)
  }

  function MutatePodReview(req: Request): Option<Answer> {
    match PodOf(req)
    case Malformed(error) =>
      Some(Answer(ReviewResponse(req.uid, false, HTTP_BAD_REQUEST,
                                 "could not parse pod in admission review request: " + error), true))
    case Parsed(pod) =>
      match MutatePod(pod)
      case Mutated(mpod) => Some(Answer(PatchReviewResponse(req.uid, Patch(pod, mpod)), false))
      case BadLabel(text) =>
        Some(Answer(ReviewResponse(req.uid, false, HTTP_BAD_REQUEST,
                                   "could not mutate pod: pod lifespan label \"" + text + "\" is not an integer"),
                    true))
      case NeverReturns => None
  }

  ghost predicate IsPod(req: Request) {
    req.kind == "Pod" && req.decoded.Parsed?
  }

  // The validating webhook's answers: accepted, forbidden, bad request; only a bad
  // request also comes with an error.
  lemma ValidationAnswers(req: Request)
    ensures var a := ValidatePodReview(req);
            && a.response.uid == req.uid && a.response.patch.None?
            && (a.response.allowed <==> IsPod(req) && Acceptable(req.decoded.pod))
            && a.response.code ==
                 (if !IsPod(req) then 400 else if Acceptable(req.decoded.pod) then 202 else 403)
            && (a.failed <==> !IsPod(req))
            && a.response.message ==
                 (if IsPod(req) then Decision(req.decoded.pod).reason
                  else "could not parse pod in admission review request: " +
                       if req.kind != "Pod" then "only pods are supported here" else req.decoded.error)
            && (a.response.allowed ==> a.response.message == "valid pod")
  {
    if IsPod(req) {
      ValidIff(req.decoded.pod);
      FirstRefusalIs(VALIDATORS, req.decoded.pod);
    }
  }

  // The mutating webhook allows, with a patch from the pod it was sent, exactly the pods
  // that can be mutated, without a status; it says no with an error, or for one label value never answers.
  lemma MutationAnswers(req: Request)
    ensures MutatePodReview(req).None? <==>
            IsPod(req) && Strconv.Atoi(LifespanText(req.decoded.pod)) == Some(-0x8000_0000_0000_0000)
    ensures MutatePodReview(req).Some? ==>
              var a := MutatePodReview(req).value;
              && a.response.uid == req.uid && a.failed == !a.response.allowed
              && (a.response.allowed <==> IsPod(req) && Mutable(req.decoded.pod))
              && (a.response.allowed <==> a.response.patch.Some?)
              && (a.response.allowed ==>
                    a.response.patch.value.before == req.decoded.pod &&
                    MutatePod(req.decoded.pod) == Mutated(a.response.patch.value.after))
              && (a.response.allowed ==> a.response.code == 0 && a.response.message == "")
              && (!a.response.allowed ==> a.response.code == 400)
              && (!IsPod(req) ==>
                    a.response.message == "could not parse pod in admission review request: " +
                      if req.kind != "Pod" then "only pods are supported here" else req.decoded.error)
              && (IsPod(req) && !a.response.allowed ==>
                    a.response.message == "could not mutate pod: pod lifespan label \"" +
                      LifespanText(req.decoded.pod) + "\" is not an integer")
  {
    if IsPod(req) {
      SucceedsIff(req.decoded.pod);
      PipelineIs(req.decoded.pod);
    }
  }

  // The validating webhook answers alike whether or not the mutating one ran first.
  lemma ReviewsAgree(req: Request)
    requires req.decoded.Parsed? && MutatePod(req.decoded.pod).Mutated?
    ensures ValidatePodReview(req) == ValidatePodReview(req.(decoded := Parsed(MutatePod(req.decoded.pod).pod)))
  {
    MutationKeepsDecision(req.decoded.pod);
  }

  // A pod through both webhooks: mutated, then validated; None where either refuses.
  function Admit(req: Request): Option<Pod> {
    match MutatePodReview(req)
    case None => None
    case Some(mutated) =>
      if mutated.failed || !mutated.response.allowed || mutated.response.patch.None? then None
      else
        var after := mutated.response.patch.value.after;
        var validated := ValidatePodReview(req.(decoded := Parsed(after)));
        if validated.response.allowed && !validated.failed then Some(after) else None
  }

  // Which pods get through, and on which lifespan-tainted nodes they may then run.
  lemma AdmittedIff(req: Request)
    ensures Admit(req).Some? <==>
            IsPod(req) && Mutable(req.decoded.pod) && Acceptable(req.decoded.pod)
    ensures Admit(req).Some? ==>
              forall taint ::
                Tolerates(Admit(req).value, taint) <==>
                Tolerates(req.decoded.pod, taint) ||
                (IsLifespanTaint(taint) && Asks(req.decoded.pod, taint.value))
  {
    if IsPod(req) {
      var p := req.decoded.pod;
      SucceedsIff(p);
      ValidIff(p);
      if MutatePod(p).Mutated? {
        MutationKeepsDecision(p);
        forall taint
          ensures Tolerates(MutatePod(p).pod, taint) <==>
                  Tolerates(p, taint) ||
                  (IsLifespanTaint(taint) && Asks(p, taint.value))
        {
          ToleratesExactly(p, taint);
        }
      }
    }
  }
}
