/**
 * The `__main__` guard (scrape.py lines 187-190): fetch, and render only when
 * at least one post came back.
 */
module Entry {
  import opened Wrappers
  import opened Listing
  import opened RedditPosts
  import opened Render

  /** One run. `written` is the page written to `index.html`, or None when
      nothing is written. */
  method Run(response: Option<Body>, env: Env, now: string) returns (written: Option<Document>)
    ensures written.None? <==> FetchedPosts(response, env) == []
    ensures Fetch(response, env).Err? ==> written.None?
    ensures written.Some? ==>
      written.value.header == HeaderPrefix + now && written.value.slides == Deck(FetchedPosts(response, env))
  {
    var posts, _ := GetRedditPosts(response, env);
    if posts != [] {
      var doc := GenerateHtml(posts, now);
      written := Some(doc);
    } else {
      written := None;
    }
  }

  /** The `Document` produced for a non-empty fetch holds between one and six slide blocks,
      exactly one of them active. */
  lemma WrittenPageShape(response: Option<Body>, env: Env)
    requires FetchedPosts(response, env) != []
    ensures 1 <= |Deck(FetchedPosts(response, env))| <= MaxPosts
    ensures ActiveCount(Deck(FetchedPosts(response, env))) == 1
  {
    AtMostSixPosts(response, env);
    ExactlyOneActive(FetchedPosts(response, env));
  }
}
