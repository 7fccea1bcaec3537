/** The request bodies of the API (`Backend/schemas.py`). Only
    `FeedbackRequest` carries constraints: each of its five ratings must lie
    in 1..5 inclusive. Pydantic's type coercion is not modelled; every field
    already has its declared type. */
module Schemas {
  import opened Wrappers

  /** Body of `/register`. */
  datatype UserInfo = UserInfo(firstName: string, lastName: string, email: string, password: string)

  /** Body of `/conversations/update-title`. */
  datatype TitleUpdate = TitleUpdate(conversationId: int, newTitle: string)

  /** Body of `/submit-feedback`, before validation. `comments` is
      optional: a body that leaves it out carries `None`. */
  datatype FeedbackRequest = FeedbackRequest(
    userId: string,
    satisfaction: int,
    easeOfUse: int,
    relevance: int,
    performance: int,
    design: int,
    comments: Option<string> := None)

  /** The rated fields, in declaration order. */
  datatype RatedField = Satisfaction | EaseOfUse | Relevance | Performance | Design

  const RatedFields: seq<RatedField> := [Satisfaction, EaseOfUse, Relevance, Performance, Design]

  const RatingMin: int := 1
  const RatingMax: int := 5

  /** `Field(ge=1, le=5)`. */
  predicate InRatingRange(x: int) {
    RatingMin <= x <= RatingMax
  }

  function Rating(f: FeedbackRequest, field: RatedField): int {
    match field
    case Satisfaction => f.satisfaction
    case EaseOfUse => f.easeOfUse
    case Relevance => f.relevance
    case Performance => f.performance
    case Design => f.design
  }

  /** A feedback body the schema accepts. */
  predicate ValidFeedback(f: FeedbackRequest) {
    && InRatingRange(f.satisfaction)
    && InRatingRange(f.easeOfUse)
    && InRatingRange(f.relevance)
    && InRatingRange(f.performance)
    && InRatingRange(f.design)
  }

  /** The rated fields a body violates, in declaration order. */
  function OutOfRange(f: FeedbackRequest, fields: seq<RatedField>): (bad: seq<RatedField>)
    ensures forall field :: field in bad <==> field in fields && !InRatingRange(Rating(f, field))
    ensures |bad| <= |fields|
  {
    if |fields| == 0 then []
    else
      var rest := OutOfRange(f, fields[1..]);
      if InRatingRange(Rating(f, fields[0])) then rest else [fields[0]] + rest
  }

  /** Validity is a per-field condition. */
  lemma ValidIffEveryField(f: FeedbackRequest)
    ensures ValidFeedback(f) <==> forall field :: InRatingRange(Rating(f, field))
  {
    assert Rating(f, Satisfaction) == f.satisfaction && Rating(f, EaseOfUse) == f.easeOfUse
        && Rating(f, Relevance) == f.relevance && Rating(f, Performance) == f.performance
        && Rating(f, Design) == f.design;
  }

  lemma FieldListed(field: RatedField)
    ensures field in RatedFields
  {
    match field
    case Satisfaction => assert RatedFields[0] == field;
    case EaseOfUse => assert RatedFields[1] == field;
    case Relevance => assert RatedFields[2] == field;
    case Performance => assert RatedFields[3] == field;
    case Design => assert RatedFields[4] == field;
  }

  /** Validation of a feedback body: the body itself when every rating is in
      range, otherwise the list of the offending fields. */
  function ValidateFeedback(f: FeedbackRequest): (r: Result<FeedbackRequest, seq<RatedField>>)
    ensures r.Success? <==> ValidFeedback(f)
    ensures r.Success? ==> r.value == f
    ensures r.Failure? ==> |r.error| > 0 && forall field :: field in r.error <==> !InRatingRange(Rating(f, field))
  {
    var bad := OutOfRange(f, RatedFields);
    assert forall field :: field in RatedFields by {
      forall field ensures field in RatedFields {
        FieldListed(field);
      }
    }
    ValidIffEveryField(f);
    if |bad| == 0 then Success(f)
    else
      assert bad[0] in bad;
      Failure(bad)
  }

  /** `comments` may be left out, and whether it is given never affects
      validation. */
  lemma CommentsOptional(f: FeedbackRequest, comments: Option<string>)
    ensures FeedbackRequest(f.userId, f.satisfaction, f.easeOfUse, f.relevance, f.performance, f.design).comments == None
    ensures ValidateFeedback(f.(comments := comments)).Success? <==> ValidateFeedback(f).Success?
  {
  }

  /** The bounds are inclusive: 1 and 5 are accepted, 0 and 6 are not, on
      every rated field alike. */
  lemma BoundsInclusive(f: FeedbackRequest, field: RatedField)
    ensures (forall g :: Rating(f, g) in {1, 5}) ==> ValidateFeedback(f).Success?
    ensures Rating(f, field) == 0 || Rating(f, field) == 6 ==> ValidateFeedback(f).Failure?
  {
    if forall g :: Rating(f, g) in {1, 5} {
      assert Rating(f, Satisfaction) in {1, 5} && Rating(f, EaseOfUse) in {1, 5}
          && Rating(f, Relevance) in {1, 5} && Rating(f, Performance) in {1, 5}
          && Rating(f, Design) in {1, 5};
    }
  }
}
