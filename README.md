# Chat Wars shops bot: catalog model

This project models the in-memory core of a Telegram bot that serves a
catalog of Chat Wars shops. A periodic job fetches the shop feed. When the
fetch returns status 200, the job drops the Shop and Offer tables, recreates
them empty, and fills them from the feed inside one database session. The
ORM strips leading and trailing whitespace from every string it stores, so a
padded value is stored trimmed. A row that fails the ORM's checks raises, the
session rolls back, and the tables stay empty. A required string that is
empty or all whitespace fails those checks. The inline query handler splits the user's query into keywords
and returns the offers whose item contains every keyword, ignoring case. The
answer is ordered by price and cut at 50, and each result carries its shop's
data and the deep link `/ws_<link>`. The `/list` command lists every shop,
ordered by kind. Every incoming update records the users it mentions.

Modules, one per concern:

- `Models` (models.dfy) holds the User, Shop and Offer records. A table is a
  sequence of rows, and a row's id is its position. `Offer.shop` is the row
  id of the owning shop, and `OffersOf` is the inverse `Shop.offers` set.
- `Text` (text.dfy) holds `str.split()`, `str.strip()`, ASCII lower-casing,
  substring containment and the deep link.
- `Ordering` (ordering.dfy) holds the two orders the database is asked for:
  offers by price and shops by kind.
- `Feed` (feed.dfy) holds the feed shapes, the tables a feed loads into, and
  the reading of the tables back as a feed.
- `Search` (search.dfy) holds what a correct search answer is and how a
  result is built.
- `Bot` (bot.dfy) holds the `Catalog` class with the tables as fields,
  `Refresh`, `CreateShops` and `CreateShop` (shops_updater), `FindOffers`, `BuildResults` and
  `InlineSearch` (inline_shop_search), and `ListShops` (list_shops). It also
  holds `CollectUsers` (dbhandler).

The database sorts, and it gives no order among equal prices or equal kinds.
The model therefore states search and listing results as "the first 50 of
some sorted arrangement" (`Search.IsAnswer`, `Bot.Catalog.ListShops`),
never as one particular order among ties. Its own sort functions are one
admissible outcome.

Behaviour of the code that a reader might expect otherwise:

- Shop `link` is not unique. Shops are told apart by row id.
- The refresh is not an atomic swap. The tables are dropped and recreated
  before the body is parsed (bot.py:133-137), so a failed load leaves them
  empty rather than as they were. The model claims nothing about what a
  concurrent reader sees during a refresh.
- Only status 200 triggers a refresh, not every 2xx status (bot.py:131).
- Keywords are a list, not a set. Repeated keywords change nothing.
- The tables survive a restart: start-up creates only missing tables
  (models.py:41-42), so the catalog before the first refresh is whatever the
  database held.

## Model

| member | source | states |
|---|---|---|
| `Models.OffersOf` | models.py:20-34 | `Shop.offers` of shop `id` holds exactly the offers whose `shop` is `id`, so the inverse relation agrees with `Offer.shop` |
| `Models.OffersOfCount` | models.py:34 | each offer occurs in its own shop's collection as often as in the Offer table, and in no other shop's collection |
| `Models.OffersOfAppend` | bot.py:148-150 | adding offer rows appends them to the collection of the shop they name and leaves every other collection unchanged |
| `Models.ConsistentAddShop` | bot.py:142-147 | storing a Shop row that passes its checks keeps the tables acceptable to the database |
| `Models.ConsistentAddOffer` | bot.py:150 | storing an Offer row that passes its checks, for an existing shop, keeps the tables acceptable to the database |
| `Models.OwnedSubset` | models.py:21 | offers taken from a table where every offer has an existing shop also have existing shops (the Required relation carries over to query results) |
| `Text.Words` | bot.py:98 | `query.split()`: every keyword is non-empty and holds no whitespace |
| `Text.WordsNone` | bot.py:98 | there are no keywords exactly when the query is empty or all whitespace |
| `Text.WordsOfWord` | bot.py:98 | a run without whitespace is exactly one keyword |
| `Text.WordsSplit` | bot.py:98 | whitespace ends a keyword: the keywords of `a`, a separator and `b` are the keywords of `a` followed by those of `b`; with `WordsOfWord` this makes every keyword a maximal run between separators |
| `Text.WordsKeepText` | bot.py:98 | splitting loses and invents no characters: the keywords joined together are the query with its whitespace removed |
| `Text.StripStartMeans` | models.py:22-32 | dropping leading whitespace keeps a suffix of the string: what is dropped is all whitespace, and the rest is empty or starts with a non-space |
| `Text.StripEndMeans` | models.py:22-32 | dropping trailing whitespace keeps a prefix of the string: what is dropped is all whitespace, and the rest is empty or ends with a non-space |
| `Text.StripMeans` | models.py:22-32 | `strip()` returns the string with some whitespace-only padding removed on each side |
| `Text.StripEmpty` | models.py:22-32 | a stripped string starts and ends with a non-space, and it is empty exactly when the string was empty or all whitespace |
| `Text.StripTrimmed` | models.py:22-32 | stripping a string with no padding leaves it unchanged |
| `Text.BlankJoin` | models.py:22-32 | two strings joined are all whitespace exactly when each one is |
| `Text.Lower` | bot.py:105 | `lower()` keeps the length; what it does to each character is stated by `LowerMeans` |
| `Text.LowerMeans` | bot.py:105 | `lower()` on ASCII: no upper-case letter remains, and a character changes only when it is an upper-case letter, which becomes its lower-case letter |
| `Text.LowerIdempotent` | bot.py:105 | lower-casing twice is lower-casing once |
| `Text.Contains` | bot.py:105 | `keyword in item`: the empty keyword is in every item, and a keyword longer than the item is not in it; its meaning is stated by `ContainsMeans` |
| `Text.ContainsMeans` | bot.py:105 | `keyword in item` holds exactly when the keyword occurs in the item as a contiguous block |
| `Text.DeepLink` | bot.py:115 | the payload is `/ws_` followed by the link |
| `Text.LinkOf` | bot.py:115 | a payload read back as a shop link is the deep link of that link |
| `Text.DeepLinkRoundTrip` | bot.py:115 | the link is recovered from `/ws_<link>`, so distinct links give distinct payloads |
| `Ordering.SortByPrice` | bot.py:103 | `order_by(price)`: the result holds the same offers, with the same multiplicities, in non-decreasing price |
| `Ordering.PrefixCheapest` | bot.py:103-106 | when a price-sorted list is cut, an offer the cut drops costs at least as much as every offer the cut keeps |
| `Ordering.TextLeTotal` | bot.py:167 | any two kinds are comparable in the text order used to sort shops |
| `Ordering.TextLeTransitive` | bot.py:167 | the text order used to sort shops is transitive |
| `Ordering.SortByKind` | bot.py:167 | `order_by(Shop.kind)`: the result holds the same shops, with the same multiplicities, in non-decreasing kind |
| `Feed.ShopTable` | bot.py:140-147 | one Shop row per feed entry, each string stored stripped and the mana as given; `LoadRoundTrip` reads the rows back as the stripped feed |
| `Feed.OfferTable` | bot.py:140-150 | every offer row created from a feed names an existing shop row (the Required relation holds after a refresh) |
| `Feed.OffersOfTable` | bot.py:142-150 | after loading, the `offers` set of the i-th shop holds exactly the rows made from the offers listed for it in the feed; the set itself has no order, and the sequence follows the Offer table's creation (id) order |
| `Feed.ShopTableStep` | bot.py:142-147 | creating one more shop appends its row to the Shop table |
| `Feed.OfferTableStep` | bot.py:148-150 | loading one more entry appends its offers' rows to the Offer table |
| `Feed.OfferRowsStep` | bot.py:148-150 | each `create(**offer)` appends one row to the entry's offer rows |
| `Feed.Stripped` | models.py:22-32 | the stored form of a feed keeps one entry per feed entry; what each entry holds is stated by `LoadRoundTrip` and `StrippedUnpadded` |
| `Feed.StrippedUnpadded` | models.py:22-32 | a feed whose strings carry no leading or trailing whitespace is stored exactly as given |
| `Feed.LoadRoundTrip` | bot.py:140-150 | reading the loaded tables back gives the feed with every string stripped: every shop with its six fields and exactly its own offers, and nothing else; with `StrippedUnpadded` this is the feed itself when no string is padded |
| `Feed.EntryLoadableMeans` | models.py:22-33 | a feed entry loads exactly when none of its five shop strings and none of its offer items is empty or all whitespace, and its mana, prices and offer mana fit in 32 bits |
| `Feed.OffersLoadableStep` | bot.py:148-150 | if the offers before the j-th one load and the j-th one passes its checks, the offers up to and including it load |
| `Feed.LoadableStep` | bot.py:140-150 | if the entries before the i-th one load and the i-th one loads, the entries up to and including it load |
| `Feed.LoadableShops` | models.py:28-33 | every Shop row a loadable feed creates has non-empty stripped strings and a 32-bit mana |
| `Feed.ConsistentEntry` | models.py:22-33 | if the tables built from a feed pass the ORM checks, then every entry of the feed loads |
| `Feed.LoadableOffers` | models.py:22-24 | every Offer row a loadable feed creates has a non-empty stripped item and 32-bit price and mana |
| `Feed.LoadableMeans` | models.py:22-33 | a feed loads without raising exactly when the tables it builds pass the ORM checks: required strings non-empty after stripping, ints within 32 bits, every offer with its shop |
| `Search.MatchesIgnoresCase` | bot.py:105 | matching ignores the item's case: an item matches exactly when its lower-cased form does |
| `Search.Matching` | bot.py:104-105 | the keyword filter never adds offers; which offers it keeps and how often is stated by `MatchingMembers` and `MatchingCount` |
| `Search.MatchingMembers` | bot.py:104-105 | the keyword filter keeps exactly the offers whose lower-cased item contains every lower-cased keyword |
| `Search.MatchingNoKeywords` | bot.py:103-105 | with no keywords the filter keeps every offer |
| `Search.MatchingNarrow` | bot.py:104-105 | filtering again by one more keyword equals filtering by all the keywords at once (AND semantics) |
| `Search.MatchingStep` | bot.py:104-105 | the i-th pass of the keyword loop turns the offers matching the first i keywords into those matching the first i+1 |
| `Search.MatchingCount` | bot.py:104-105 | the filter keeps every copy of a matching offer and none of a non-matching one |
| `Search.MatchingPermutation` | bot.py:103-105 | filtering two arrangements of the same offers gives two arrangements of the same matches, so sorting before filtering is sound |
| `Search.MatchingSorted` | bot.py:103-105 | filtering a price-sorted list keeps it price-sorted |
| `Search.IsAnswer` | bot.py:103-106 | a correct answer holds at most 50 offers; its other properties are `AnswerMatches`, `AnswerShape`, `AnswerCheapest` and `AnswerExists` |
| `Search.Capped` | bot.py:106 | `.limit(50)`: a prefix of the list with min(50, length) offers |
| `Search.RankedAnswer` | bot.py:103-106 | filtering any price-sorted arrangement of the catalog and keeping the first 50 is a correct answer |
| `Search.AnswerMatches` | bot.py:104-105 | every offer in an answer is a catalog offer whose item contains every keyword, ignoring case |
| `Search.AnswerShape` | bot.py:103-106 | an answer is in non-decreasing price and holds min(50, number of matches) offers |
| `Search.AnswerCheapest` | bot.py:103-106 | a matching offer the answer leaves out costs at least as much as every offer in the answer |
| `Search.AnswerExists` | bot.py:103-106 | every catalog and keyword list has a correct answer |
| `Search.EmptyQueryMatchesAll` | bot.py:98-105 | an empty or all-whitespace query matches every offer, subject only to the cap |
| `Search.ArticleFor` | bot.py:110-115 | choosing the result sends the payload that opens the offer's own shop |
| `Search.Render` | bot.py:108-117 | one result per answer offer |
| `Search.RenderFields` | bot.py:109-115 | the j-th result's title fields come from the j-th offer's own shop, its description from that offer and shop, and its message is `/ws_` followed by that shop's link |
| `Bot.Catalog.constructor` | models.py:37-42 | the catalog at start-up is whatever the database holds (empty on a new database), and it satisfies the table checks |
| `Bot.Catalog.Refresh` | bot.py:125-153 | on status 200 with a body whose rows all pass their checks, the tables become exactly the feed's shops and offers and reading them back gives the feed with every string stripped; on status 200 with an unparseable body or a failing row (a required string that is empty or all whitespace, or an int outside 32 bits), both tables end empty; on any other status both tables are unchanged; the tables always hold only rows that pass their checks |
| `Bot.Catalog.CreateShops` | bot.py:140-150 | the loop over the body's shops, started on empty tables, succeeds exactly when the whole feed loads, and then the tables are the feed's tables and pass the checks |
| `Bot.Catalog.CreateShop` | bot.py:140-150 | one pass of the refresh loop succeeds exactly when the entry's Shop row and every Offer row pass their checks, and then extends both tables by that entry's rows |
| `Bot.Catalog.FindOffers` | bot.py:98-106 | the offer query returns a correct answer for the keywords, and every returned offer has its shop in the table |
| `Bot.Catalog.BuildResults` | bot.py:108-117 | the result loop builds exactly the rendering of the found offers, in their order |
| `Bot.Catalog.InlineSearch` | bot.py:88-122 | at most 50 results, and they are the rendering of a correct answer to the query's keywords |
| `Bot.Catalog.ListShops` | bot.py:156-173 | one entry per shop, in non-decreasing kind, and the entries are the listing of a kind-sorted arrangement of all shops |
| `Bot.EntryFor` | bot.py:169-170 | a listing entry shares the payload that opens its shop and shows its kind |
| `Bot.Entries` | bot.py:168-171 | one listing entry per shop, in order, each sharing that shop's payload |
| `Bot.CollectUsers` | bot.py:69-77 | the users to store are the sender, then the forwarded message's author if any, then the member who left if any, then every new member in order, and nobody else |

## Left out

- Telegram transport: `start`, `help`, the `Updater`, handler registration, and webhook versus polling (bot.py:28-58, 176-197). These are external I/O.
- `@run_async` and the job queue (bot.py:28, 181). Everything is modelled sequentially, so concurrent readers during a refresh are not modelled.
- The HTTP fetch (bot.py:129). `Refresh` takes the status code and the decoded body as parameters.
- JSON decoding (bot.py:137). `Refresh` takes the decoded body. It is `None` when the body is not a list of shop objects with the six shop keys and an offers list, when an offer object lacks one of `item`, `price` and `mana` (the `Required` check makes `create(**offer)` at bot.py:150 raise), or when an offer object has a key other than `item`, `price`, `mana` and `id` (`create` rejects unknown attributes). In each of these cases the load raises and rolls back, which is the `None` outcome. An `id` key sets the Offer row's primary key, which Pony adds because `Offer` declares none. The model does not represent it, since a row id is a position here, so feeds whose offers carry `id` are not modelled. Extra keys on a shop object are ignored by the code and are simply absent from `ShopInput`. Values of the wrong JSON type, which the ORM may convert or reject, are not modelled.
- The `uuid4()` result ids (bot.py:111). They are random.
- The ORM checks are modelled for the columns this core writes: required strings must be non-empty and ints must fit in 32 bits (`Models.ShopStorable`, `Models.OfferStorable`). Other Pony validation, such as string length limits set by a database backend, is not modelled.
- Pony ORM plumbing: `db.bind`, `generate_mapping`, `drop_table`, `create_tables` and `db_session` (models.py:37-42, bot.py:133-136). Tables are sequences, and row ids are positions from 0 rather than database-assigned keys.
- `User.update_or_create` and the User table. mixins.py is not part of this model, so the upsert loop (bot.py:79-82) and the primary-key uniqueness of `User.id` are not stated. `Models.User` only records the column shapes.
- schemas.py. Its schemas are created but never used for loading.
- Logging, emoji, HTML markup and the number-to-text formatting of titles, descriptions and listing lines. `Article` and `Entry` carry the fields those strings are built from, plus the deep link.
- Text.Strip: models `str.strip()` over the ASCII whitespace characters only; Unicode spaces that Python also strips are not modelled.
- Text.Lower: models `str.lower()` on ASCII letters only; other Unicode case mappings are not modelled.
- Text.Words: treats only the ASCII characters that `str.split()` counts as whitespace as separators; Unicode spaces are not modelled.
- Ordering.TextLe: compares kinds by character code, as a binary collation does; a locale collation in a production database may order kinds differently.
- Bot.CollectUsers: takes the effective user as present; an update without one is not modelled.
- Bot.Catalog.InlineSearch: does not fix the order among offers of equal price, because the database does not.
