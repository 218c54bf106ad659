/**
 * The shape of the parsed JSON body of a subreddit listing, as far as
 * `get_reddit_posts` reads it: `data.children[*].data` with the post fields.
 * Every key the code looks up may be missing, so each field is an Option;
 * a present field holds the type the listing API sends for it.
 */
module Listing {
  import opened Wrappers

  /** `source` object of one preview image: `{"url": ...}`. */
  datatype ImageSource = ImageSource(url: Option<string>)

  /** One element of `preview.images`: `{"source": {...}}`. */
  datatype PreviewImage = PreviewImage(source: Option<ImageSource>)

  /** The `preview` object of a post: `{"images": [...]}`. */
  datatype Preview = Preview(images: Option<seq<PreviewImage>>)

  /** The `data` object of one child record. `createdUtc` is whole seconds since the Unix epoch. */
  datatype RawPost = RawPost(
    isAd: Option<bool>,
    stickied: Option<bool>,
    postHint: Option<string>,
    url: Option<string>,
    preview: Option<Preview>,
    title: Option<string>,
    author: Option<string>,
    createdUtc: Option<int>)

  /** One element of `data.children`: `{"data": {...}}`. */
  datatype Child = Child(data: Option<RawPost>)

  /** The top-level `data` object: `{"children": [...]}`. */
  datatype ListingData = ListingData(children: Option<seq<Child>>)

  /** The decoded response body: `{"data": {...}}`. */
  datatype Body = Body(data: Option<ListingData>)

  /** The exception that ends the fetch; each one makes the whole result empty. */
  datatype Failure =
    | NotJson                 // response.json() could not decode the body
    | MissingKey(key: string) // KeyError on a subscript
    | EmptyImageList          // IndexError on preview.images[0]
    | TimestampOutOfRange     // the instant (UTC or local) lies outside the years 1..9999

  /** Python truthiness of an optional boolean flag read with `dict.get`. */
  predicate Truthy(flag: Option<bool>) {
    flag == Some(true)
  }

  /** Python truthiness of an optional string: neither None nor the empty string. */
  predicate TruthyText(s: Option<string>) {
    s.Some? && s.value != ""
  }
}
