/**
 * The slide loop of `generate_html` (scrape.py lines 59-88): one block per
 * post, in order; only the first is active; an image when the post has a
 * truthy image, otherwise the placeholder. A SlideBlock stands for the HTML
 * text of one `<div class="slide">`; the fields are kept apart, whereas the
 * page text splices them in unescaped.
 */
module Render {
  import opened Wrappers
  import opened Listing
  import opened RedditPosts

  const SourceLabel := "REDDIT r/BOXOFFICE"
  const PlaceholderLabel := "r/boxoffice"
  const HeaderPrefix := "STAND: "

  /** `<img src="..." alt="Reddit Image">` or the `no-image-placeholder` div. */
  datatype Picture = Img(src: string) | Placeholder(text: string)

  /** One slide `<div>`: the `active` class, the picture, the source label, the
      `pub-time` span, the `author` span and the title. */
  datatype SlideBlock = SlideBlock(
    active: bool,
    picture: Picture,
    source: string,
    pubTime: string,
    author: string,
    title: string)

  /** The page: the `header-info` stamp and the slide blocks. */
  datatype Document = Document(header: string, slides: seq<SlideBlock>)

  /** The block for post number i. */
  function Block(i: nat, s: Slide): SlideBlock {
    SlideBlock(
      i == 0,
      if TruthyText(s.image) then Img(s.image.value) else Placeholder(PlaceholderLabel),
      SourceLabel,
      s.timeStr + " UHR",
      "u/" + s.author,
      s.title)
  }

  /** All blocks, `slides_html`, for a list of posts. */
  function Deck(posts: seq<Slide>): seq<SlideBlock> {
    seq(|posts|, k requires 0 <= k < |posts| => Block(k, posts[k]))
  }

  /** `generate_html`: the `slides_html +=` loop over `enumerate(posts)`, and the
      header stamp built from `now`, the formatted wall-clock time. */
  method GenerateHtml(posts: seq<Slide>, now: string) returns (doc: Document)
    ensures doc.header == HeaderPrefix + now
    ensures doc.slides == Deck(posts)
  {
    var slides: seq<SlideBlock> := [];
    for i := 0 to |posts|
      invariant slides == Deck(posts[..i])
    {
      var item := posts[i];
      var active := i == 0;
      var picture;
      if item.image.Some? && item.image.value != "" {
        picture := Img(item.image.value);
      } else {
        picture := Placeholder(PlaceholderLabel);
      }
      slides := slides + [SlideBlock(active, picture, SourceLabel, item.timeStr + " UHR", "u/" + item.author, item.title)];
      assert posts[..i + 1][..i] == posts[..i];
    }
    assert posts[..|posts|] == posts;
    doc := Document(HeaderPrefix + now, slides);
  }

  /** What a reader of one slide sees of its post. */
  datatype Shown = Shown(title: string, author: string, timeStr: string, image: Option<string>)

  function ShownOf(s: Slide): Shown {
    Shown(s.title, s.author, s.timeStr, if TruthyText(s.image) then s.image else None)
  }

  /** Reads a block back: strips the `u/` prefix and the ` UHR` suffix. */
  function ReadBack(b: SlideBlock): Shown
    requires |b.author| >= 2 && b.author[..2] == "u/"
    requires |b.pubTime| >= 4 && b.pubTime[|b.pubTime| - 4..] == " UHR"
  {
    Shown(b.title, b.author[2..], b.pubTime[..|b.pubTime| - 4],
          match b.picture case Img(src) => Some(src) case Placeholder(_) => None)
  }

  /** N posts give N blocks in order; block k is active iff k == 0; it shows an
      image exactly when the post's image is truthy, and otherwise the placeholder;
      each block can be read back to what its post shows. */
  lemma DeckShape(posts: seq<Slide>)
    ensures |Deck(posts)| == |posts|
    ensures forall k :: 0 <= k < |posts| ==>
      && (Deck(posts)[k].active <==> k == 0)
      && (Deck(posts)[k].picture.Img? <==> TruthyText(posts[k].image))
      && (Deck(posts)[k].picture.Placeholder? ==> Deck(posts)[k].picture.text == PlaceholderLabel)
      && Deck(posts)[k].source == SourceLabel
      && Deck(posts)[k].author == "u/" + posts[k].author
      && Deck(posts)[k].pubTime == posts[k].timeStr + " UHR"
      && |Deck(posts)[k].author| >= 2 && Deck(posts)[k].author[..2] == "u/"
      && |Deck(posts)[k].pubTime| >= 4 && Deck(posts)[k].pubTime[|Deck(posts)[k].pubTime| - 4..] == " UHR"
      && ReadBack(Deck(posts)[k]) == ShownOf(posts[k])
  {
    forall k | 0 <= k < |posts|
      ensures Deck(posts)[k].author[..2] == "u/"
      ensures Deck(posts)[k].pubTime[|Deck(posts)[k].pubTime| - 4..] == " UHR"
    {
      var b := Deck(posts)[k];
      assert b.author[..2] == ("u/" + posts[k].author)[..2];
      assert b.pubTime[|b.pubTime| - 4..] == (posts[k].timeStr + " UHR")[|posts[k].timeStr|..];
    }
  }

  function ActiveCount(blocks: seq<SlideBlock>): nat
    decreases |blocks|
  {
    if blocks == [] then 0 else (if blocks[0].active then 1 else 0) + ActiveCount(blocks[1..])
  }

  lemma {:induction false} NoneActive(blocks: seq<SlideBlock>)
    requires forall k :: 0 <= k < |blocks| ==> !blocks[k].active
    ensures ActiveCount(blocks) == 0
    decreases |blocks|
  {
    if blocks != [] {
      NoneActive(blocks[1..]);
    }
  }

  /** Exactly one block is initially visible when there is at least one post, none otherwise. */
  lemma ExactlyOneActive(posts: seq<Slide>)
    ensures ActiveCount(Deck(posts)) == if posts == [] then 0 else 1
  {
    if posts != [] {
      DeckShape(posts);
      NoneActive(Deck(posts)[1..]);
    }
  }
}
