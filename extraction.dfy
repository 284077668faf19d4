/** The choice `get_article` makes between its three scrapers. The scrapers
    themselves fetch and parse HTML; here their results are inputs. The
    first two may yield nothing (`None`); the generic scraper always yields
    an article, an empty one when it fails. */
module Extraction {
  import opened Wrappers

  datatype Article = Article(title: string, text: string)

  /** A stage's result is taken when it exists and its cleaned body is
      longer than 200 characters. */
  const MinBody: nat := 200

  predicate Accepted(stage: Option<Article>) {
    stage.Some? && |stage.value.text| > MinBody
  }

  predicate NoneAcceptedBefore(stages: seq<Option<Article>>, i: nat) {
    forall j :: 0 <= j < i && j < |stages| ==> !Accepted(stages[j])
  }

  /** `get_article`: the site-specific result if accepted, else the
      readability-library result if accepted, else the generic result,
      whatever its length. */
  function GetArticle(custom: Option<Article>, newspaper: Option<Article>, generic: Article): (r: Article)
    ensures Accepted(custom) ==> r == custom.value
    ensures !Accepted(custom) && Accepted(newspaper) ==> r == newspaper.value
    ensures !Accepted(custom) && !Accepted(newspaper) ==> r == generic
  {
    if custom.Some? && |custom.value.text| > MinBody then custom.value
    else if newspaper.Some? && |newspaper.value.text| > MinBody then newspaper.value
    else generic
  }

  /** The cascade as a prioritised list of strategies: the first accepted
      stage, or the fallback when none is. */
  function FirstAccepted(stages: seq<Option<Article>>, fallback: Article): (r: Article)
    ensures (forall j :: 0 <= j < |stages| ==> !Accepted(stages[j])) ==> r == fallback
    ensures forall i :: 0 <= i < |stages| && Accepted(stages[i]) && NoneAcceptedBefore(stages, i) ==>
              r == stages[i].value
  {
    if stages == [] then fallback
    else if Accepted(stages[0]) then stages[0].value
    else FirstAccepted(stages[1..], fallback)
  }

  /** `get_article` is the three-stage instance of the general cascade. */
  lemma GetArticleIsCascade(custom: Option<Article>, newspaper: Option<Article>, generic: Article)
    ensures GetArticle(custom, newspaper, generic) == FirstAccepted([custom, newspaper], generic)
  {
    var stages := [custom, newspaper];
    if !Accepted(custom) && Accepted(newspaper) {
      assert NoneAcceptedBefore(stages, 1);
    }
  }

  /** The generic stage's result is returned even when it is short or
      empty: the cascade never fails. */
  lemma ShortGenericStillReturned(generic: Article)
    requires |generic.text| <= MinBody
    ensures GetArticle(None, None, generic) == generic
    ensures GetArticle(Some(generic), Some(generic), generic) == generic
  {
  }
}
