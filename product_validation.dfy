/**
  Input checks for product creation and update: title and description must not be
  empty or white space only, and the price must be positive. There is no upper bound.
 */
module ProductValidation {
  import opened Wrappers
  import opened Errors
  import opened Strings

  const TitleEmpty := Message("title cannot be empty")
  const DescriptionEmpty := Message("description cannot be empty")
  const PriceNotPositive := Message("price must be greater than zero")

  /**
    `ValidateCreateProductInput`: title, then description, then price; the first
    failing check decides the error.
   */
  function ValidateCreateProductInput(title: string, description: string, price: int): (r: Outcome)
    ensures r == Pass <==> !IsBlank(title) && !IsBlank(description) && price > 0
    ensures IsBlank(title) ==> r == Fail(TitleEmpty)
    ensures !IsBlank(title) && IsBlank(description) ==> r == Fail(DescriptionEmpty)
    ensures !IsBlank(title) && !IsBlank(description) && price <= 0 ==> r == Fail(PriceNotPositive)
  {
    if TrimSpace(title) == "" then Fail(TitleEmpty)
    else if TrimSpace(description) == "" then Fail(DescriptionEmpty)
    else if price <= 0 then Fail(PriceNotPositive)
    else Pass
  }

  /** A price that was given and is not positive; a price left out is never refused. */
  predicate BadPriceGiven(price: Option<int>) {
    price.Some? && price.value <= 0
  }

  /**
    `ValidateUpdateProductInput`: the same checks in the same order, applied only to
    the fields that were given.
   */
  function ValidateUpdateProductInput(title: Option<string>, description: Option<string>, price: Option<int>): (r: Outcome)
    ensures r == Pass <==> !BlankGiven(title) && !BlankGiven(description) && !BadPriceGiven(price)
    ensures BlankGiven(title) ==> r == Fail(TitleEmpty)
    ensures !BlankGiven(title) && BlankGiven(description) ==> r == Fail(DescriptionEmpty)
    ensures !BlankGiven(title) && !BlankGiven(description) && BadPriceGiven(price) ==> r == Fail(PriceNotPositive)
  {
    if title.Some? && TrimSpace(title.value) == "" then Fail(TitleEmpty)
    else if description.Some? && TrimSpace(description.value) == "" then Fail(DescriptionEmpty)
    else if price.Some? && price.value <= 0 then Fail(PriceNotPositive)
    else Pass
  }

  /** An update that gives no field passes. */
  lemma UpdateNothingPasses()
    ensures ValidateUpdateProductInput(None, None, None) == Pass
  {
  }

  /** An update that gives every field is judged exactly as a creation. */
  lemma UpdateAllGivenAgreesWithCreate(title: string, description: string, price: int)
    ensures ValidateUpdateProductInput(Some(title), Some(description), Some(price))
         == ValidateCreateProductInput(title, description, price)
  {
  }

  /** The smallest accepted price is 1, and any larger one is accepted too. */
  lemma PriceBoundary(title: string, description: string, price: int)
    requires !IsBlank(title) && !IsBlank(description)
    ensures ValidateCreateProductInput(title, description, price) == Pass <==> price >= 1
  {
  }
}
