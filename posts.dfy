/**
 * `get_reddit_posts` after the response body has been decoded (scrape.py
 * lines 16-57): walk `data.children` in order, skip ads and stickied posts,
 * turn each remaining post into a Slide, stop after six; any exception on the
 * way makes the whole result empty.
 */
module RedditPosts {
  import opened Wrappers
  import opened Listing
  import opened Clock
  import opened Images

  /** `if len(posts) >= 6: break`. */
  const MaxPosts := 6

  /** The collaborators the code calls but this model does not define: the
      Europe/Berlin offset from UTC (seconds) at each UTC instant, and `html.unescape`. */
  datatype Env = Env(utcOffset: int -> int, unescape: string -> string)

  /** One entry of `posts`: title, author, image, `time_str` and `time_obj`
      (here the local wall-clock time in seconds). */
  datatype Slide = Slide(title: string, author: string, image: Option<string>, timeStr: string, localTime: int)

  function Min(a: int, b: int): int {
    if a <= b then a else b
  }

  /** `not (p.get('is_ad') or p.get('stickied'))`. */
  predicate Eligible(p: RawPost) {
    !Truthy(p.isAd) && !Truthy(p.stickied)
  }

  /** The Slide built from an eligible post, or the exception raised while
      building it, in the order the statements of the loop body raise them. */
  function Normalize(p: RawPost, env: Env): Result<Slide, Failure> {
    match ChooseImage(p)
    case Err(e) => Err(e)
    case Ok(chosen) =>
      if p.createdUtc.None? then Err(MissingKey("created_utc"))
      else
        match ToLocal(p.createdUtc.value, env.utcOffset)
        case None => Err(TimestampOutOfRange)
        case Some(local) =>
          if p.title.None? then Err(MissingKey("title"))
          else if p.author.None? then Err(MissingKey("author"))
          else Ok(Slide(p.title.value, p.author.value, StoredImage(chosen, env.unescape), FormatHHMM(local), local))
  }

  /** One iteration of the loop: `post['data']`, then the filter, then normalisation.
      Ok(None) is a skipped child. */
  function Examine(c: Child, env: Env): Result<Option<Slide>, Failure> {
    if c.data.None? then Err(MissingKey("data"))
    else if !Eligible(c.data.value) then Ok(None)
    else
      match Normalize(c.data.value, env)
      case Err(e) => Err(e)
      case Ok(s) => Ok(Some(s))
  }

  /** The rest of the loop over `children` once `acc` has been collected: the
      reference the method's loop is proved against. */
  function Scan(children: seq<Child>, acc: seq<Slide>, env: Env): (r: Result<seq<Slide>, Failure>)
    requires |acc| < MaxPosts
    ensures r.Ok? ==> |acc| <= |r.value| <= MaxPosts && r.value[..|acc|] == acc
    decreases |children|
  {
    if children == [] then Ok(acc)
    else
      match Examine(children[0], env)
      case Err(e) => Err(e)
      case Ok(None) => Scan(children[1..], acc, env)
      case Ok(Some(s)) =>
        if |acc + [s]| >= MaxPosts then Ok(acc + [s]) else Scan(children[1..], acc + [s], env)
  }

  /** The whole try-block: `data['data']['children']`, then the loop. */
  function Fetch(response: Option<Body>, env: Env): Result<seq<Slide>, Failure> {
    if response.None? then Err(NotJson)
    else if response.value.data.None? then Err(MissingKey("data"))
    else if response.value.data.value.children.None? then Err(MissingKey("children"))
    else Scan(response.value.data.value.children.value, [], env)
  }

  /** What `get_reddit_posts` returns: the posts, or `[]` after any exception. */
  function FetchedPosts(response: Option<Body>, env: Env): seq<Slide> {
    match Fetch(response, env)
    case Ok(posts) => posts
    case Err(_) => []
  }

  /** The loop of `get_reddit_posts`. `diagnostic` is the exception the
      `except` branch prints. */
  method GetRedditPosts(response: Option<Body>, env: Env) returns (posts: seq<Slide>, diagnostic: Option<Failure>)
    ensures Fetch(response, env).Ok? ==> posts == Fetch(response, env).value && diagnostic == None
    ensures Fetch(response, env).Err? ==> posts == [] && diagnostic == Some(Fetch(response, env).error)
    ensures posts == FetchedPosts(response, env)
  {
    if response.None? {
      return [], Some(NotJson);
    }
    var listing := response.value.data;
    if listing.None? {
      return [], Some(MissingKey("data"));
    }
    var maybeChildren := listing.value.children;
    if maybeChildren.None? {
      return [], Some(MissingKey("children"));
    }
    var children := maybeChildren.value;
    posts := [];
    for i := 0 to |children|
      invariant |posts| < MaxPosts
      invariant Scan(children, [], env) == Scan(children[i..], posts, env)
    {
      assert children[i..][0] == children[i] && children[i..][1..] == children[i + 1..];
      var child := children[i];
      if child.data.None? {
        return [], Some(MissingKey("data"));
      }
      var p := child.data.value;

      if Truthy(p.isAd) || Truthy(p.stickied) {
        continue;
      }

      var imageUrl: Option<string> := None;
      if p.postHint == Some("image") || HasImageExtension(p.url.GetOr("")) {
        imageUrl := p.url;
      } else if p.preview.Some? && p.preview.value.images.Some? {
        var images := p.preview.value.images.value;
        if |images| == 0 {
          return [], Some(EmptyImageList);
        }
        if images[0].source.None? {
          return [], Some(MissingKey("source"));
        }
        if images[0].source.value.url.None? {
          return [], Some(MissingKey("url"));
        }
        imageUrl := images[0].source.value.url;
      }

      if imageUrl.Some? && imageUrl.value != "" {
        imageUrl := Some(env.unescape(imageUrl.value));
      }

      if p.createdUtc.None? {
        return [], Some(MissingKey("created_utc"));
      }
      var local := ToLocal(p.createdUtc.value, env.utcOffset);
      if local.None? {
        return [], Some(TimestampOutOfRange);
      }

      if p.title.None? {
        return [], Some(MissingKey("title"));
      }
      if p.author.None? {
        return [], Some(MissingKey("author"));
      }
      posts := posts + [Slide(p.title.value, p.author.value, imageUrl, FormatHHMM(local.value), local.value)];

      if |posts| >= MaxPosts {
        break;
      }
    }
    diagnostic := None;
  }

  // ---------------------------------------------------------------------------
  // The loop as a filter followed by a cap

  /** The `data` of every child the filter keeps, in input order (children
      without `data` contribute nothing). */
  function EligiblePosts(children: seq<Child>): (r: seq<RawPost>)
    ensures forall k :: 0 <= k < |r| ==> Eligible(r[k])
    decreases |children|
  {
    if children == [] then []
    else
      (if children[0].data.Some? && Eligible(children[0].data.value) then [children[0].data.value] else [])
      + EligiblePosts(children[1..])
  }

  /** The loop without the cap: every child examined, every slide kept. */
  function NormalizeAll(children: seq<Child>, env: Env): Result<seq<Slide>, Failure>
    decreases |children|
  {
    if children == [] then Ok([])
    else
      match Examine(children[0], env)
      case Err(e) => Err(e)
      case Ok(o) =>
        match NormalizeAll(children[1..], env)
        case Err(e) => Err(e)
        case Ok(rest) => Ok((if o.Some? then [o.value] else []) + rest)
  }

  /** Without the cap, the slides are the eligible posts normalised one by one, in order.
      With `ScanTakesFirst` this is the special case of `ScanOkIsFirstEligible`
      where no child raises at all. */
  lemma {:induction false} NormalizeAllMapsEligible(children: seq<Child>, env: Env)
    requires NormalizeAll(children, env).Ok?
    ensures |NormalizeAll(children, env).value| == |EligiblePosts(children)|
    ensures forall k :: 0 <= k < |EligiblePosts(children)| ==>
      Normalize(EligiblePosts(children)[k], env) == Ok(NormalizeAll(children, env).value[k])
    decreases |children|
  {
    if children != [] {
      NormalizeAllMapsEligible(children[1..], env);
    }
  }

  /** When no child raises at all, the loop keeps the first min(6, n) of the
      n slides, after those already collected: the special case of
      `ScanOkIsFirstEligible` stated through the uncapped loop `NormalizeAll`. */
  lemma {:induction false} ScanTakesFirst(children: seq<Child>, acc: seq<Slide>, env: Env)
    requires |acc| < MaxPosts
    requires NormalizeAll(children, env).Ok?
    ensures var all := acc + NormalizeAll(children, env).value;
      Scan(children, acc, env) == Ok(all[..Min(MaxPosts, |all|)])
    decreases |children|
  {
    if children == [] {
      assert acc + [] == acc;
    } else {
      var rest := NormalizeAll(children[1..], env).value;
      match Examine(children[0], env)
      case Ok(None) =>
        assert NormalizeAll(children, env).value == rest;
        ScanTakesFirst(children[1..], acc, env);
      case Ok(Some(s)) =>
        assert NormalizeAll(children, env).value == [s] + rest;
        assert acc + ([s] + rest) == (acc + [s]) + rest;
        if |acc + [s]| < MaxPosts {
          ScanTakesFirst(children[1..], acc + [s], env);
        } else {
          assert ((acc + [s]) + rest)[..MaxPosts] == acc + [s];
        }
    }
  }

  /** Whenever the loop succeeds, even when children it never reaches would
      raise, its slides are those already collected followed by the first
      eligible posts, normalised in order, up to six in all. */
  lemma {:induction false} ScanOkIsFirstEligible(children: seq<Child>, acc: seq<Slide>, env: Env)
    requires |acc| < MaxPosts
    requires Scan(children, acc, env).Ok?
    ensures var r := Scan(children, acc, env).value;
      var e := EligiblePosts(children);
      && |r| == Min(MaxPosts, |acc| + |e|)
      && r[..|acc|] == acc
      && forall k :: |acc| <= k < |r| ==> Normalize(e[k - |acc|], env) == Ok(r[k])
    decreases |children|
  {
    if children != [] {
      var r := Scan(children, acc, env).value;
      var e := EligiblePosts(children);
      match Examine(children[0], env)
      case Ok(None) =>
        assert e == EligiblePosts(children[1..]);
        ScanOkIsFirstEligible(children[1..], acc, env);
      case Ok(Some(s)) =>
        var p := children[0].data.value;
        assert e == [p] + EligiblePosts(children[1..]);
        assert Normalize(p, env) == Ok(s);
        if |acc + [s]| < MaxPosts {
          ScanOkIsFirstEligible(children[1..], acc + [s], env);
          assert r[..|acc| + 1] == acc + [s];
          assert r[|acc|] == s;
          assert r[..|acc|] == r[..|acc| + 1][..|acc|];
        } else {
          assert r == acc + [s];
        }
    }
  }

  /** Children after the sixth slide are never examined: appending anything to
      a listing that already fills the cap changes nothing. */
  lemma {:induction false} ScanStopsAtCap(children: seq<Child>, later: seq<Child>, acc: seq<Slide>, env: Env)
    requires |acc| < MaxPosts
    requires Scan(children, acc, env).Ok? && |Scan(children, acc, env).value| == MaxPosts
    ensures Scan(children + later, acc, env) == Scan(children, acc, env)
    decreases |children|
  {
    if children == [] {
      assert false;
    } else {
      assert (children + later)[0] == children[0];
      assert (children + later)[1..] == children[1..] + later;
      match Examine(children[0], env)
      case Ok(None) =>
        ScanStopsAtCap(children[1..], later, acc, env);
      case Ok(Some(s)) =>
        if |acc + [s]| < MaxPosts {
          ScanStopsAtCap(children[1..], later, acc + [s], env);
        }
    }
  }

  /** An ad or a stickied post is invisible: removing it from the listing does
      not change the outcome, slides or failure. */
  lemma {:induction false} IneligibleChildIsInvisible(before: seq<Child>, c: Child, after: seq<Child>, acc: seq<Slide>, env: Env)
    requires |acc| < MaxPosts
    requires c.data.Some? && (Truthy(c.data.value.isAd) || Truthy(c.data.value.stickied))
    ensures Scan(before + [c] + after, acc, env) == Scan(before + after, acc, env)
    decreases |before|
  {
    if before == [] {
      assert before + [c] + after == [c] + after && ([c] + after)[1..] == after;
      assert before + after == after;
    } else {
      assert (before + [c] + after)[0] == before[0] && (before + after)[0] == before[0];
      assert (before + [c] + after)[1..] == before[1..] + [c] + after;
      assert (before + after)[1..] == before[1..] + after;
      match Examine(before[0], env)
      case Err(_) =>
      case Ok(None) =>
        IneligibleChildIsInvisible(before[1..], c, after, acc, env);
      case Ok(Some(s)) =>
        if |acc + [s]| < MaxPosts {
          IneligibleChildIsInvisible(before[1..], c, after, acc + [s], env);
        }
    }
  }

  /** All or nothing: a child that raises, reached before six slides are
      collected, makes the loop fail with its exception whatever follows. */
  lemma {:induction false} OneBadPostFailsScan(children: seq<Child>, i: nat, acc: seq<Slide>, env: Env)
    requires |acc| < MaxPosts
    requires i < |children| && Examine(children[i], env).Err?
    requires NormalizeAll(children[..i], env).Ok?
    requires |acc| + |NormalizeAll(children[..i], env).value| < MaxPosts
    ensures Scan(children, acc, env) == Err(Examine(children[i], env).error)
    decreases i
  {
    if i > 0 {
      assert children[..i][0] == children[0] && children[..i][1..] == children[1..][..i - 1];
      var before := NormalizeAll(children[1..][..i - 1], env).value;
      match Examine(children[0], env)
      case Ok(None) =>
        assert NormalizeAll(children[..i], env).value == before;
        OneBadPostFailsScan(children[1..], i - 1, acc, env);
      case Ok(Some(s)) =>
        assert NormalizeAll(children[..i], env).value == [s] + before;
        OneBadPostFailsScan(children[1..], i - 1, acc + [s], env);
    }
  }

  // ---------------------------------------------------------------------------
  // The same properties for a whole response body

  function Response(children: seq<Child>): Option<Body> {
    Some(Body(Some(ListingData(Some(children)))))
  }

  /** At most six posts come back, whatever the listing holds. */
  lemma AtMostSixPosts(response: Option<Body>, env: Env)
    ensures |FetchedPosts(response, env)| <= MaxPosts
  {
  }

  /** A body that is not JSON or lacks `data` or `children` yields no posts. */
  lemma MalformedBodyYieldsNothing(response: Option<Body>, env: Env)
    requires response.None? || response.value.data.None? || response.value.data.value.children.None?
    ensures Fetch(response, env).Err? && FetchedPosts(response, env) == []
  {
  }

  /** Whenever the fetch succeeds, the posts are the first min(6, n) of the n
      eligible posts, normalised, in input order; so no ad and no stickied post
      is among them. Children after the sixth post may hold anything. */
  lemma FirstSixEligible(children: seq<Child>, env: Env)
    requires Fetch(Response(children), env).Ok?
    ensures var eligible := EligiblePosts(children);
      && |FetchedPosts(Response(children), env)| == Min(MaxPosts, |eligible|)
      && forall k :: 0 <= k < |FetchedPosts(Response(children), env)| ==>
           Eligible(eligible[k]) && Normalize(eligible[k], env) == Ok(FetchedPosts(Response(children), env)[k])
  {
    ScanOkIsFirstEligible(children, [], env);
  }

  /** One bad post among those examined empties the whole result, even when
      other posts before it were good. */
  lemma BadPostEmptiesResult(children: seq<Child>, i: nat, env: Env)
    requires i < |children| && Examine(children[i], env).Err?
    requires NormalizeAll(children[..i], env).Ok? && |NormalizeAll(children[..i], env).value| < MaxPosts
    ensures Fetch(Response(children), env) == Err(Examine(children[i], env).error)
    ensures FetchedPosts(Response(children), env) == []
  {
    OneBadPostFailsScan(children, i, [], env);
  }

  /** Each slide's time is an `HH:MM` reading of its post's `created_utc` shifted
      by the zone offset; its title and author are the post's, and its image is
      the chosen one, unescaped when truthy. */
  lemma NormalizedSlide(p: RawPost, env: Env)
    requires Normalize(p, env).Ok?
    ensures var s := Normalize(p, env).value;
      && p.createdUtc.Some? && s.localTime == p.createdUtc.value + env.utcOffset(p.createdUtc.value)
      && IsHHMM(s.timeStr)
      && (var (h, m) := ParseHHMM(s.timeStr);
          0 <= s.localTime % SecondsPerDay - (SecondsPerHour * h + SecondsPerMinute * m) < SecondsPerMinute)
      && Some(s.title) == p.title && Some(s.author) == p.author
      && ChooseImage(p).Ok? && s.image == StoredImage(ChooseImage(p).value, env.unescape)
  {
    FormatReadsClock(Normalize(p, env).value.localTime);
  }

  /** Normalising fails exactly when the image rule fails, `created_utc`,
      `title` or `author` is missing, or the instant is out of Python's range. */
  lemma NormalizeFailsExactly(p: RawPost, env: Env)
    ensures Normalize(p, env).Err? <==>
      || ChooseImage(p).Err?
      || p.createdUtc.None?
      || !Representable(p.createdUtc.value)
      || !Representable(p.createdUtc.value + env.utcOffset(p.createdUtc.value))
      || p.title.None?
      || p.author.None?
  {
  }
}
