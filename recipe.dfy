/** The values that flow from the scraper to the report and the database:
    the per-recipe field mapping and the kinds of value it holds. */
module Recipe {
  import opened Wrappers
  import opened Dicts

  /** A scalar as Python holds it before it reaches a table column:
      None, a string, an int, or a float (kept as a real, never computed
      with). */
  datatype Cell = Null | Text(text: string) | Number(number: int) | Float(float: real)

  /** The review count: the digits of the review element, or the
      "no reviews" sentinel. */
  datatype ReviewCount = Counted(digits: string) | NoReviews

  /** The rating: absent, or the number float() reads from the text the
      search matched in the rating element. */
  datatype RatingValue = NoRating | Rated(text: string)

  /** Which fields the run scrapes: one flag per field, in the order the
      scraper's dispatch table lists them. */
  datatype Selection = Selection(
    title: bool, ingredients: bool, details: bool, reviews: bool, rating: bool,
    nutrition: bool, published: bool, category: bool, link: bool)

  /** The per-recipe mapping from field name to value; a None field is a
      key the mapping does not have. */
  datatype FieldMap = FieldMap(
    title: Option<Cell>,
    ingredients: Option<seq<string>>,
    details: Option<Entries<Cell>>,
    reviews: Option<ReviewCount>,
    rating: Option<RatingValue>,
    nutrition: Option<Entries<int>>,
    published: Option<string>,
    category: Option<seq<string>>,
    link: Option<string>,
    instructions: Option<Entries<string>>)

  /** The mapping has exactly the keys the selection asks for. */
  predicate HasSelectedKeys(m: FieldMap, sel: Selection) {
    && m.title.Some? == sel.title
    && m.ingredients.Some? == sel.ingredients
    && m.details.Some? == sel.details
    && m.reviews.Some? == sel.reviews
    && m.rating.Some? == sel.rating
    && m.nutrition.Some? == sel.nutrition
    && m.published.Some? == sel.published
    && m.category.Some? == sel.category
    && m.link.Some? == sel.link
    && m.instructions.None?
  }
}
