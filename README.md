# r/boxoffice slideshow scraper — Dafny model

This project models the decision logic of `scrape.py`, a one-shot job that reads the newest posts of
r/boxoffice and writes them as a self-rotating slideshow page.

- **`get_reddit_posts`** (module `RedditPosts`). The response body has already been decoded. The job walks
  `data.children` in order. It skips ads and stickied posts and picks an image for each remaining post by
  two ordered rules. A truthy image URL is HTML-unescaped. `created_utc` becomes an `HH:MM` string in the
  display zone. The walk stops once six posts are collected. Any exception on the way empties the whole result.
  - `GetRedditPosts` is the loop itself, written imperatively: `continue`, `break`, a mutable `imageUrl`.
  - The loop is proved against the tail-recursive reference `Scan`.
  - `Scan` is in turn related to a filter (`EligiblePosts`) followed by a cap (`NormalizeAll` and the first six).
- **Image choice** (module `Images`). Rule 1 applies when `post_hint == 'image'` or the url ends in `.jpg`,
  `.png` or `.webp`; the image is then `url`. Otherwise rule 2 applies when the post has `preview.images`; the
  image is then the first preview image's source url. Otherwise there is no image.
- **Time string** (module `Clock`). The UTC instant is shifted by the zone's offset and formatted `HH:MM`.
  Python's datetime range (years 1 to 9999) is modelled: an instant outside it raises.
- **`generate_html`'s slide loop** (module `Render`). It builds one `SlideBlock` per post, in order. Only the
  first block is active. A block shows the image when it is truthy and the placeholder otherwise.
  `SlideBlock` and `Document` stand for the HTML text, field by field (see "## Left out" for where the two differ).
- **The `__main__` guard** (module `Entry`). The page is rendered and written only when the post list is non-empty.

Three consequences of the code are worth stating:
- When no posts come back, nothing is written: there is no "no data" placeholder page. `generate_html([])` would produce zero slide blocks.
- `scrape.py` never checks the HTTP status. Only the body's shape matters: an error body without `data.children` raises `KeyError`.
- An eligible post (neither ad nor stickied) that lacks `title` or `author` and is reached before six posts are collected is not skipped. It raises `KeyError`, and that empties the whole result.

## Model

| member | source | states |
|---|---|---|
| `RedditPosts.GetRedditPosts` | scrape.py:16-57 | returns exactly the posts the reference `Fetch` computes, or `[]` together with the exception as diagnostic when any step raises |
| `RedditPosts.Scan` | scrape.py:22-52 | the loop never returns more than six posts and only appends to those already collected |
| `RedditPosts.EligiblePosts` | scrape.py:26-27 | every post that passes the filter has neither `is_ad` nor `stickied` truthy |
| `RedditPosts.NormalizeAllMapsEligible` | scrape.py:22-50 | without the cap, slide k is the normalisation of the k-th eligible post, and there is one slide per eligible post |
| `RedditPosts.ScanTakesFirst` | scrape.py:22-52 | when nothing raises, the loop yields the first min(6, n) of the n slides, after those already collected |
| `RedditPosts.ScanStopsAtCap` | scrape.py:52 | once six posts are collected, later children are never examined: appending children changes nothing |
| `RedditPosts.IneligibleChildIsInvisible` | scrape.py:26-27 | removing an ad or stickied child from the listing changes neither the posts nor the failure |
| `RedditPosts.OneBadPostFailsScan` | scrape.py:22-57 | a child that raises, reached before the sixth post, makes the loop fail with its exception whatever follows |
| `RedditPosts.AtMostSixPosts` | scrape.py:52 | the result never holds more than six posts |
| `RedditPosts.MalformedBodyYieldsNothing` | scrape.py:18-22 | an undecodable body or one without `data` or `children` fails and yields `[]` |
| `RedditPosts.ScanOkIsFirstEligible` | scrape.py:22-52 | whenever the loop succeeds, even when children after the cap would raise, its slides are those already collected followed by the first eligible posts, normalised in order, up to six in all |
| `RedditPosts.FirstSixEligible` | scrape.py:22-54 | whenever the fetch succeeds, the result is the first min(6, #eligible) eligible posts, normalised, in input order, none of them an ad or stickied; children after the sixth post may hold anything |
| `RedditPosts.BadPostEmptiesResult` | scrape.py:55-57 | one bad examined post empties the whole result even when good posts came before it |
| `RedditPosts.NormalizedSlide` | scrape.py:39-50 | a slide's time is the `HH:MM` reading of `created_utc` plus the zone offset; its title and author are the post's; its image is the chosen one, unescaped when truthy |
| `RedditPosts.NormalizeFailsExactly` | scrape.py:36-46 | building a slide fails iff the preview lookup fails, `created_utc`, `title` or `author` is missing, or the UTC or local instant is out of datetime's range |
| `Images.DirectImageIgnoresPreview` | scrape.py:32-35 | rule 1 wins over rule 2: a direct image yields `p.get('url')` whatever preview the post has |
| `Images.ChosenImageOrigin` | scrape.py:30-36 | a chosen image is the post's url under rule 1, and otherwise the source url of the first preview image |
| `Images.ChooseImageFailsOnlyOnPreview` | scrape.py:35-36 | choosing an image raises only under rule 2, and raises `IndexError` exactly when `preview.images` is empty |
| `Images.NoRuleNoImage` | scrape.py:30-36 | when neither rule applies the image is None |
| `Images.ExtensionForAllNames` | scrape.py:32 | for every URL prefix, the extension test is exact and case-sensitive: `.jpg`, `.png`, `.webp` match; `.jpeg`, `.gif`, `.JPG` do not |
| `Images.StoredImageUnescapesOnlyTruthy` | scrape.py:39-40 | None and `''` are stored unchanged; any other URL is passed through `html.unescape` |
| `Clock.FormatReadsClock` | scrape.py:42-48 | the time string is always `HH:MM` with hour below 24 and minute below 60, and reads back as the clock reading of the local instant |
| `Clock.FormatIsDaily` | scrape.py:48 | the time string depends only on the time of day |
| `Render.GenerateHtml` | scrape.py:59-88 | the `Document` carries the header stamp and the slide blocks `Deck(posts)` |
| `Render.DeckShape` | scrape.py:64-88 | N posts give N blocks in order; block k is active iff k = 0; it shows `<img>` iff the image is truthy, else the placeholder; its author field is `u/` followed by the author and its time field is the time string followed by ` UHR`; reading a block back gives the post's title, author (after `u/`), time (before ` UHR`) and truthy image |
| `Render.ExactlyOneActive` | scrape.py:65 | a non-empty deck has exactly one active block |
| `Entry.Run` | scrape.py:187-190 | a `Document` is produced iff the fetched list is non-empty, so a failed fetch writes nothing; the `Document` holds the deck of the fetched posts |
| `Entry.WrittenPageShape` | scrape.py:187-190 | the `Document` produced for a non-empty fetch holds one to six slide blocks, exactly one of them active |

## Left out

- The HTTP request (scrape.py:9-17) is not modelled: URL, User-Agent header and 15-second timeout are network I/O. The model starts from the decoded body.
- `response.json()` (scrape.py:18) is a foreign decoder. Its failure is the input `None`, which yields `NotJson`.
- JSON values of unexpected types are not modelled. Each field is either absent or of the type the listing API sends. So a `url` of `null` (which would make `.endswith` raise) and a non-boolean truthy `is_ad` are not represented.
- Europe/Berlin's rules are not modelled (they come from the tz database). The offset from UTC at each instant is the parameter `Env.utcOffset`.
- `created_utc` is a float in the API. Here it is whole seconds, so sub-second rounding is not modelled.
- `html.unescape` is a library function. It is the parameter `Env.unescape`.
- `datetime.now` (scrape.py:61) reads the wall clock. The formatted stamp is the parameter `now` of `GenerateHtml`.
- The CSS and HTML template text (scrape.py:90-182) is not modelled. A `SlideBlock` or `Document` stands for it.
- The write of `index.html` (scrape.py:184-185) is file I/O. `Entry.Run` returns the page instead.
- The printed diagnostic (scrape.py:56) is I/O. It is returned as the out-parameter `diagnostic`.
- The client-side JavaScript rotation and reload (scrape.py:166-178) is not modelled. It runs in the browser, and the job only emits it as fixed text.
- Titles, authors, times and image URLs are inserted into the HTML unescaped (scrape.py:69, 82-85), and the unescaping at scrape.py:40 can itself produce a `"` inside `src="..."`. `SlideBlock` keeps them as separate fields. So the block count, the single active block and the read-back hold for the `Document` record, and for the written page text only when those fields contain no markup.
