# Glass Informer panel: authentication gate, article wizard, stores and publication search

This project models, in Dafny, the core of the Glass Informer administration panel, a Next.js application.

## What it covers

**The edge authentication gate (`proxy.js`).** The gate decides, for each request:
- Allow;
- a redirect to the login entry point `/`;
- a redirect to the panel `/logged`.

It keeps an in-process validation cache keyed by a fingerprint of the id and access tokens. Entries live for five minutes and expire lazily on read. A sweep removes every expired entry once the cache holds more than a thousand. When the cache does not vouch for the pair, the gate verifies the pair, and when verification fails it runs the refresh-token exchange, writing two new cookies.

**The older gate variant (`middleware.js`).** It posts the cookie header to `/api/validate-token` and refreshes on a non-ok answer.

**The article-id generator (`useArticleId.ts`).** It builds `article_<YY>_<ordinal>`, where the ordinal is one more than the largest ordinal of the current year's ids, zero-padded to nine digits. It also has fallbacks.

**The three flat JSON stores (article, content and publication services).** Each store offers:
- find-first;
- append;
- shallow-merge update in place;
- splice delete.

Each operation reads and writes the whole array.

**The article creation wizard.** It covers:
- `create/page.tsx`: component state, tag and content handlers, the three-phase navigation, and the ordered final submission;
- `ContentModal.tsx`: the content editor dialog;
- `ArticleFormPhase1.tsx`: the first-step form.

**The publication filter panel (`PublicationFilter.tsx`).** It covers:
- the parameter string and the `canFilter` guard;
- the encoded link;
- the sorted distinct values offered in its selects.

**The publication search page (`publications/search/page.tsx`).** It covers:
- the filters record;
- the filter predicate: magazine and number equality, plus month-granular date bounds computed through the `Date` constructor.

**The server's error-to-status mapping (`server/errorHandler.js`).**

## How it is modelled

State that the source mutates in place is a Dafny `class`:
- the validation cache;
- the store file;
- the wizard page and the dialog;
- the filter panel;
- the article-id hook.

Methods carry `modifies` and state the whole new state. Each decision chain and each loop is a method proved equal to a specification function. The listed properties are proved about those functions as lemmas:
- `Proxy` against `Decide`;
- `Middleware` against `Decide`;
- the max-ordinal scan against `MaxOrdinal`;
- the cache sweep against `Sweep`;
- the unique-value pass against `SortedValues`, whose lists hold exactly what `Collect` collects.

Remote outcomes are inputs:
- token verification;
- the refresh exchange;
- the validation endpoint;
- the article listing;
- each creation request;
- a store write.

The clock and the current year are inputs. Fresh content ids are inputs too.

Two points where a reader might expect something else from the gate:
- The cache is not bounded in size. The code only sweeps expired entries once the cache passes a thousand, so it can hold any number of live entries (`TokenCache.SweepRemovesExactlyExpired`).
- The refreshed cookies' `maxAge` is not simply `expires_in`, with 3600 when absent. The code's `||` also falls back to 3600 when `expires_in` is 0 (`ProxyGate.RefreshPath`).

Some behaviour of the code is kept as written, and a lemma makes it visible:
- Date bounds compare by (year, month) only for years from 100 on. The `Date` constructor reads a year from 0 to 99 as 1900 to 1999, on both the bound's side and the publication's (`PublicationSearch.TwoDigitBoundYear`, `Publications.LeapDayOfYearZeroMoves`).
- The first-step component's Next guard does not check the id, but the page's guard does (`FormPhase1.GuardWeakerThanPage`).

## Model

| member | source | states |
|---|---|---|
| TokenCache.LookupNeverStale | proxy.js:9-16 | a read returns the stored flag only while `now < expiresAt`; a missing or expired key reads as nothing and is deleted; the read never adds or alters an entry, and a hit keeps the map as it is |
| TokenCache.StoreThenLookup | proxy.js:18-22 | after a store, the key reads back the stored flag for exactly five minutes, whatever was there before and whether or not a sweep ran |
| TokenCache.StoreKeepsOthers | proxy.js:18-32 | a store keeps every other live entry unchanged, never alters another entry, and within the threshold keeps every entry |
| TokenCache.SweepRemovesExactlyExpired | proxy.js:24-31 | above a thousand entries the sweep removes exactly the expired ones; every live entry, the new one included, stays |
| TokenCache.ValidationCache.constructor | proxy.js:6 | the cache starts empty |
| TokenCache.ValidationCache.Get | proxy.js:9-16 | `getCachedValidation`: the answer and the new map are the lookup and the post-read map |
| TokenCache.ValidationCache.Set | proxy.js:18-32 | `setCachedValidation`: the loop over the entries leaves exactly the store followed by the sweep |
| AuthCookies.TokenCookiesDistinct | proxy.js:61-65 | a user's id, access and refresh cookies have three different names |
| ProxyGate.Proxy | proxy.js:34-134 | the method's decision, cookies, remote calls and final cache are those of the decision chain `Decide` |
| ProxyGate.LoginPathDecision | proxy.js:50-56 | on `/`, a username cookie redirects to the panel and its absence lets the request through; no call, no cookie, no cache change |
| ProxyGate.MissingCredentialRedirects | proxy.js:58-70 | elsewhere, a missing username or refresh-token cookie redirects to login and touches nothing |
| ProxyGate.AllowExactlyWhenAuthenticated | proxy.js:58-133 | never fails open: off `/`, Allow holds iff both cookies are present and one of three things holds: a live positive cache entry, both tokens verify, or the refresh succeeds; never a panel redirect |
| ProxyGate.CacheHitSkipsRemoteCalls | proxy.js:75-82 | a live positive entry allows with no verification, no refresh, no cookie and no cache change |
| ProxyGate.VerifiedPairIsCached | proxy.js:85-95 | a verified pair is allowed without refresh or cookies, and reads back as valid for exactly five minutes |
| ProxyGate.RefreshPath | proxy.js:96-133 | after a miss and a failed or skipped verification, refresh is attempted; on success the gate writes access then id cookie (secure, not HTTP-only, lax, `expires_in` or 3600), allows, and caches the new pair; on failure it redirects with no cookie |
| ProxyGate.NegativeEntryIsInert | proxy.js:77-99 | a live `valid: false` entry yields the same outcome as no entry at all |
| ProxyGate.RefreshedPairIsCacheHit | proxy.js:103-128 | after a successful refresh, the next request with the new pair within five minutes is a cache hit with no remote call |
| ProxyGate.DecideKeepsEntriesAuthorized | proxy.js:76-128 | every positive cache entry stays the key of a pair that verified or was issued by a refresh, across any request |
| ProxyGate.FullKeyInjective | proxy.js:76 | the length-prefixed full-pair key tells any two token pairs apart |
| ProxyGate.FullKeyHitImpliesAuthorized | proxy.js:76-82 | with the full-pair key, a request allowed with no remote call carries a pair that verified or was refreshed |
| ProxyGate.PrefixKeyAdmitsForeignPair | proxy.js:76-82 | with the 50-character prefix key as written, a pair that never verified, sharing the prefixes of one that did, is allowed with no remote call |
| MiddlewareGate.Middleware | middleware.js:5-71 | the method's outcome is that of the decision chain `Decide`, a throw included when the validation `fetch` rejects |
| MiddlewareGate.MissingCredentialGoesToLogin | middleware.js:8-29 | without a username or refresh-token cookie: a redirect to `/` off `/`, the request continuing on `/`, no validation call |
| MiddlewareGate.ValidationRequestShape | middleware.js:34-41 | validation posts to `<origin>/api/validate-token` with the request's cookie header or ""; the middleware throws iff that `fetch` rejects, since it is awaited outside any `try`; otherwise refresh is called iff the response is not ok |
| MiddlewareGate.RefreshAfterFailedValidation | middleware.js:43-68 | a successful refresh allows with the access and id cookies (secure, `maxAge` = `expires_in`, no fallback), except on `/`, which goes to the panel; a failed one is `goToLogin` |
| MiddlewareGate.ValidatedRouting | middleware.js:66-70 | after an ok validation, `/` goes to the panel and every other path passes, with no cookie |
| MiddlewareGate.LegacyAllowExactlyWhenAuthenticated | middleware.js:19-70 | it throws iff both cookies are present and the validation `fetch` rejects; otherwise, off `/`, Allow iff both cookies are present and validation or refresh succeeded, never a panel redirect; on `/`, the panel under the same condition and never the login redirect |
| ArticleId.YearSuffix | app/logged/pages/articles/create/hooks/useArticleId.ts:19-20 | the suffix is the year's last two digits, or its only digit below 10: its value is `year % 100` and its characters are the tens and units digits |
| ArticleId.TwoDigitSuffix | app/logged/pages/articles/create/hooks/useArticleId.ts:20 | from year 10 on, the suffix has exactly two digits |
| ArticleId.CurrentYearIds | app/logged/pages/articles/create/hooks/useArticleId.ts:21-26 | the filter keeps exactly the ids matching `^article_YY_\d{9}$` |
| ArticleId.MaxOrdinalIsMaximum | app/logged/pages/articles/create/hooks/useArticleId.ts:28-37 | the maximum bounds every parsed ordinal and is one of them, or 0 |
| ArticleId.ScanMaxOrdinal | app/logged/pages/articles/create/hooks/useArticleId.ts:28-37 | the `forEach` accumulator ends at the maximum ordinal |
| ArticleId.GenerateArticleId | app/logged/pages/articles/create/hooks/useArticleId.ts:8-50 | the returned id is `NextId`: ordinal max + 1 for an array, the `000000001` fallback otherwise |
| ArticleId.IdForFormat | app/logged/pages/articles/create/hooks/useArticleId.ts:39-41 | an id is `article_<YY>_` followed by at least nine digits whose value is the ordinal; exactly nine iff the ordinal is below 10^9 |
| ArticleId.YearIdOrdinal | app/logged/pages/articles/create/hooks/useArticleId.ts:29-32 | an id matching the year pattern has as captured ordinal the value of its last nine digits |
| ArticleId.IdDiffersFromSmallerOrdinal | app/logged/pages/articles/create/hooks/useArticleId.ts:39-41 | an existing id whose ordinal is below `n` is not the id built for `n` |
| ArticleId.NotTheNextId | app/logged/pages/articles/create/hooks/useArticleId.ts:28-41 | no id of the year is the id built from the maximum ordinal plus one |
| ArticleId.GeneratedIdIsFresh | app/logged/pages/articles/create/hooks/useArticleId.ts:21-41 | the generated id differs from every existing id of the year |
| ArticleId.NoMatchNoIds | app/logged/pages/articles/create/hooks/useArticleId.ts:23-26 | with no id of the year, the filter keeps nothing |
| ArticleId.NoMatchGivesFirstId | app/logged/pages/articles/create/hooks/useArticleId.ts:28-41 | with no id of the year, the result is `article_YY_000000001` |
| ArticleId.GeneratedIdNotBlank | app/logged/pages/articles/create/hooks/useArticleId.ts:58-66 | a generated id is never blank, so the blank-id fallback never fires |
| ArticleId.ArticleIdHook.constructor | app/logged/pages/articles/create/hooks/useArticleId.ts:5-6 | the hook starts with an empty id, generating |
| ArticleId.ArticleIdHook.LoadArticleId | app/logged/pages/articles/create/hooks/useArticleId.ts:53-77 | afterwards generation is over and the id is the generated one, or the fallback when it is blank |
| RecordStore.FindIndex | server/features/article/ArticleService.js:48-51 | the first matching position, or -1 exactly when none matches |
| RecordStore.Merge | server/features/article/ArticleService.js:52 | the merged record has both records' keys, with the patch's values winning |
| RecordStore.AppendAddsOne | server/features/article/ArticleService.js:39-44 | a push keeps every earlier record in place and adds one record, with no duplicate check |
| RecordStore.LookupAfterAppend | server/features/article/ArticleService.js:30-44 | after a push, a lookup by id still finds the earlier record when there is one, else the new one |
| RecordStore.RemoveFirstMatchCount | server/features/article/ArticleService.js:57-66 | the splice removes exactly one matching record; later duplicates remain |
| RecordStore.UpdateAtKeepsOthers | server/features/article/ArticleService.js:52 | the indexed assignment changes that position only and keeps the length |
| RecordStore.UpdateKeepsLookup | server/features/article/ArticleService.js:46-55 | a patch without the key field keeps the record findable at the same position |
| RecordStore.Store.constructor | server/features/article/ArticleService.js:4 | a store over a file, a key field and an entity name |
| RecordStore.Store.GetAll | server/features/article/ArticleService.js:6-28 | the whole array; an unreadable file reads as [] |
| RecordStore.Store.GetById | server/features/article/ArticleService.js:30-37 | the first record with the id; "<Entity> with id <id> not found" exactly when none has it |
| RecordStore.Store.Create | server/features/article/ArticleService.js:39-44 | the file becomes the old array plus the record and the input is returned; a failed write changes nothing and fails |
| RecordStore.Store.Update | server/features/article/ArticleService.js:46-55 | not found writes nothing; otherwise the first match is replaced by the merge, which is returned |
| RecordStore.Store.Delete | server/features/article/ArticleService.js:57-66 | not found writes nothing; otherwise the first match is spliced out, with the order kept, and returned |
| ArticleService.Open | server/features/article/ArticleService.js:4 | the article store: `id_article`, "Article" |
| ContentService.Open | server/features/content/ContentService.js:4 | the content store: `content_id`, "Content" |
| PublicationService.Open | server/features/publication/PublicationService.js:4 | the publication store: `id_publication`, "Publication" |
| ErrorHandler.HandleError | server/errorHandler.js:9-31 | 404 iff `TimeLogNotFound`; 400 iff not that but one of the three Cognito exceptions; 500 iff none; the error's message below 500, the fixed message at 500 |
| ErrorHandler.FirstMatch | server/errorHandler.js:11-25 | the first class in the order that the error belongs to, or none |
| ErrorHandler.HandleErrorIsFirstMatch | server/errorHandler.js:9-31 | the chain agrees with a table: the first matching class of the order decides, else 500 |
| ErrorHandler.NotFoundWins | server/errorHandler.js:11-13 | a `TimeLogNotFound` error is a 404 whatever other classes it has |
| TagRules.AddTag | app/logged/pages/articles/create/page.tsx:58-63 | a blank input changes nothing; otherwise the trimmed, non-blank tag is appended, earlier tags are kept and the input is cleared |
| TagRules.FilterOutIndex | app/logged/pages/articles/create/page.tsx:66 | the filter on the index drops exactly that position, or nothing for an index outside the list |
| TagRules.RemoveTagSpec | app/logged/pages/articles/create/page.tsx:65-67 | removal drops the element at the index only, in order; an index outside the list changes nothing |
| TagRules.AddThenRemoveLast | app/logged/pages/articles/create/page.tsx:58-67 | removing the tag just added restores the list |
| ContentRules.PresetNeedsUsedFields | app/logged/pages/articles/create/page.tsx:101-128 | a fresh preset is never confirmable; filling only the used fields makes it confirmable, since the preset fills the unused ones with a non-blank value |
| ContentRules.BuildContent | app/logged/pages/articles/create/page.tsx:135-139 | the content keeps the edited id when non-empty, else takes the fresh id, with the selected type and fields |
| ContentRules.ReplaceById | app/logged/pages/articles/create/page.tsx:143 | same length; every block with the id is replaced, the rest kept |
| ContentRules.EditKeepsIds | app/logged/pages/articles/create/page.tsx:141-143 | an edit keeps the list of ids, so the order, and puts the new content where the id was |
| ContentRules.FilterOutId | app/logged/pages/articles/create/page.tsx:160 | exactly the blocks without the id remain |
| ContentRules.FilterOutIdDistributes | app/logged/pages/articles/create/page.tsx:160 | `filter` works block by block and keeps the order: filtering a concatenation filters each part, and one block stays iff its id differs |
| ContentRules.FilterOutIdLength | app/logged/pages/articles/create/page.tsx:160 | the result is shorter by exactly the number of blocks with the id |
| ContentRules.DeleteAbsentIdKeepsAll | app/logged/pages/articles/create/page.tsx:158-162 | deleting an id no block has keeps the list as it is |
| ContentRules.NewContentPlacement | app/logged/pages/articles/create/page.tsx:144-153 | a new block is added exactly once: appended without a position, at the position clamped to the length otherwise, the rest in order |
| CreatePage.PhaseMachine | app/logged/pages/articles/create/page.tsx:69-174 | each button moves one phase or none: 1 to 2 only under the guard, then 2 to 3, 2 to 1 and 3 to 2; phase 3 is reached only from 2 |
| CreatePage.FirstFailure | app/logged/pages/articles/create/page.tsx:182-209 | the position of the first failed creation, all earlier ones succeeding |
| CreatePage.FirstFailureAt | app/logged/pages/articles/create/page.tsx:182-209 | the first false entry is the first failure |
| CreatePage.FirstFailureNone | app/logged/pages/articles/create/page.tsx:182-209 | with no failure the index is the length |
| CreatePage.ConfirmEffect | app/logged/pages/articles/create/page.tsx:115-156 | an unconfirmable form changes nothing; a confirm closes the modal; an edit keeps the ids; a new block is added exactly once |
| CreatePage.CreateArticlePage.constructor | app/logged/pages/articles/create/page.tsx:31-56 | the initial state: phase 1, every field empty, modal closed |
| CreatePage.CreateArticlePage.AddTag | app/logged/pages/articles/create/page.tsx:58-63 | the page's tags and input become those of `TagRules.AddTag`; nothing else changes |
| CreatePage.CreateArticlePage.RemoveTag | app/logged/pages/articles/create/page.tsx:65-67 | only the tag list changes, to `TagRules.RemoveTag` |
| CreatePage.CreateArticlePage.PressPhaseButton | app/logged/pages/articles/create/page.tsx:69-174 | only the phase changes, to `NextPhase` under the id-title-date guard |
| CreatePage.CreateArticlePage.OpenContentModal | app/logged/pages/articles/create/page.tsx:75-87 | the modal opens with the position, and loads the edited content's type and fields or resets them |
| CreatePage.CreateArticlePage.CloseContentModal | app/logged/pages/articles/create/page.tsx:89-95 | the modal part returns to closed and empty; nothing else changes |
| CreatePage.CreateArticlePage.ContentTypeSelect | app/logged/pages/articles/create/page.tsx:101-113 | the type is set and the form becomes its preset |
| CreatePage.CreateArticlePage.ContentConfirm | app/logged/pages/articles/create/page.tsx:115-156 | the new state is `Confirmed` of the old one; its properties are `ConfirmEffect` |
| CreatePage.CreateArticlePage.DeleteContent | app/logged/pages/articles/create/page.tsx:158-162 | once confirmed, only the contents change, to those without the id |
| CreatePage.CreateArticlePage.FinalSubmit | app/logged/pages/articles/create/page.tsx:176-254 | contents are sent in order up to and including the first failure; the article is sent iff none failed, carrying all content ids in order; success iff that and the article creation succeeded |
| ContentModal.ContentModalState.constructor | app/logged/pages/articles/create/components/ContentModal.tsx:20-25 | no type, empty fields |
| ContentModal.ContentModalState.Sync | app/logged/pages/articles/create/components/ContentModal.tsx:27-35 | loads the edited content's type and fields, or resets to no type and empty fields |
| ContentModal.ContentModalState.SelectType | app/logged/pages/articles/create/components/ContentModal.tsx:41-52 | the type is set and the form is the same preset the page uses |
| ContentModal.ContentModalState.Confirm | app/logged/pages/articles/create/components/ContentModal.tsx:54-81 | emits iff a type is set and the form is valid, then closes; what it emits is the content built from the edited content (its id kept when non-empty, the fresh one otherwise), the type and the fields, with the given position |
| ContentModal.ModalAgreesWithPage | app/logged/pages/articles/create/components/ContentModal.tsx:54-81 | for any effect meeting `Confirm`'s contract on the page's state: nothing emitted means the page's confirm changes nothing; an emitted (content, position) placed into the list gives exactly the page's confirmed state, and both close the dialog |
| FormPhase1.HandleAddTag | app/logged/pages/articles/create/components/ArticleFormPhase1.tsx:20-27 | no update iff the input is blank; otherwise the page's tag list and a cleared input |
| FormPhase1.HandleRemoveTag | app/logged/pages/articles/create/components/ArticleFormPhase1.tsx:29-33 | only the tag list is sent: for an index in range, the list without that element, the order kept; otherwise unchanged |
| FormPhase1.PatchMatchesPageHandler | app/logged/pages/articles/create/components/ArticleFormPhase1.tsx:20-27 | applying the patch gives the state the page's own handler produces |
| FormPhase1.EnabledButtonAdvances | app/logged/pages/articles/create/components/ArticleFormPhase1.tsx:200-208 | the button is enabled iff the id is not being generated and the handler's guard holds |
| FormPhase1.GuardWeakerThanPage | app/logged/pages/articles/create/components/ArticleFormPhase1.tsx:35-39 | the page's guard implies the component's, but only the page rejects an empty id |
| Text.TrimStartSpec | app/logged/pages/articles/create/page.tsx:59 | the leading-trim result is a suffix starting with no white space, and all it drops is white space |
| Text.TrimEndSpec | app/logged/pages/articles/create/page.tsx:59 | the trailing-trim result is a prefix ending with no white space, and all it drops is white space |
| Text.TrimIsInnerSlice | app/logged/pages/articles/create/page.tsx:60 | a trimmed string is a slice of the input with white space only outside it |
| Text.TrimIdempotent | app/logged/pages/articles/create/page.tsx:59-60 | trimming twice is trimming once |
| Text.BlankIffAllWhitespace | app/logged/pages/articles/create/page.tsx:59 | `s.trim()` is empty iff every character is white space |
| Text.Take | proxy.js:76 | `substring(0, n)`: the first `n` characters, or the whole string when shorter |
| Text.NatToDecimal | app/logged/pages/articles/create/hooks/useArticleId.ts:40 | `toString()` of a number is a non-empty digit string with no leading zero |
| Text.DecimalRoundTrip | app/logged/pages/articles/create/hooks/useArticleId.ts:40 | reading the decimal string of `n` gives `n` back |
| Text.DecimalLength | app/logged/pages/articles/create/hooks/useArticleId.ts:40 | the decimal string has at most `w` digits iff `n < 10^w` |
| Text.PadStart | app/logged/pages/articles/create/hooks/useArticleId.ts:40 | `padStart` gives the width, or the string's own length when longer, and ends with the string: it never truncates |
| Text.LeadingZerosValue | app/logged/pages/articles/create/hooks/useArticleId.ts:40 | leading zeros do not change a numeral's value |
| Text.DecimalValueInjective | app/logged/pages/articles/create/hooks/useArticleId.ts:30-32 | equal-length digit strings with equal values are equal |
| Text.JoinEmptyIff | app/logged/pages/publications/publication_components/PublicationFilter.tsx:72 | joining non-empty entries is empty iff there are none |
| Text.StrLessIrreflexive | app/logged/pages/publications/publication_components/PublicationFilter.tsx:43-46 | the sort order never puts a string before itself |
| Text.StrLessTransitive | app/logged/pages/publications/publication_components/PublicationFilter.tsx:43-46 | the sort order is transitive |
| Text.StrLessTrichotomy | app/logged/pages/publications/publication_components/PublicationFilter.tsx:43-46 | of two different strings, one sorts first |
| Text.StrLessAsymmetric | app/logged/pages/publications/publication_components/PublicationFilter.tsx:43-46 | two strings never each sort before the other |
| Text.Reverse | app/logged/pages/publications/publication_components/PublicationFilter.tsx:44 | `reverse()`: same length, positions mirrored |
| Seqs.RemoveAt | server/features/article/ArticleService.js:63 | `splice(i, 1)`: one shorter, the other elements in order |
| Seqs.InsertAt | app/logged/pages/articles/create/page.tsx:149-151 | `splice(p, 0, x)`: `x` at the clamped position, the rest in order |
| Seqs.InsertThenRemove | app/logged/pages/articles/create/page.tsx:149-151 | removing what was inserted gives the list back |
| Publications.ParseIntOfIntToString | app/logged/pages/publications/search/page.tsx:45-49 | `parseInt(String(n))` is `n` for every integer |
| Publications.ParseIntOfDigits | app/logged/pages/publications/search/page.tsx:48 | `parseInt` of a non-empty digit string is its decimal value |
| Publications.MonthStringParses | app/logged/pages/publications/search/page.tsx:46-49 | a month's two-digit padded string reads back as the month |
| Publications.DigitPrefix | app/logged/pages/publications/search/page.tsx:48 | the longest digit prefix, with no digit after it |
| Publications.Split | app/logged/pages/publications/search/page.tsx:38 | `split` gives at least one part, none containing the separator |
| Publications.SplitJoin | app/logged/pages/publications/search/page.tsx:38 | joining the parts with the separator gives the string back |
| Publications.JoinSplit | app/logged/pages/publications/search/page.tsx:38 | splitting a join of separator-free parts gives the parts back |
| Publications.DaysInMonth | app/logged/pages/publications/search/page.tsx:70 | a month has 28 to 31 days in the proleptic Gregorian calendar |
| Publications.DayAt | app/logged/pages/publications/search/page.tsx:71 | a day past the month's end runs into the next month, and the result lies inside its month |
| Publications.DayAtKeepsDate | app/logged/pages/publications/search/page.tsx:71 | a calendar date outside years 0 to 99 lands on itself |
| Publications.LeapDayOfYearZeroMoves | app/logged/pages/publications/search/page.tsx:71 | February 29 of year 0 lands on March 1, 1900 |
| PublicationSearch.BuildFilters | app/logged/pages/publications/search/page.tsx:17-22 | the filters hold exactly the present, non-empty parameters |
| PublicationSearch.BuildFiltersIdempotent | app/logged/pages/publications/search/page.tsx:17-22 | building the filters twice changes nothing |
| PublicationSearch.BoundParts | app/logged/pages/publications/search/page.tsx:38-39 | when a bound yields year and month texts, both are non-empty and free of `-` |
| PublicationSearch.FilterPublications | app/logged/pages/publications/search/page.tsx:25-80 | a publication is in the result iff it is in the input and passes every filter |
| PublicationSearch.SearchIsSubsequence | app/logged/pages/publications/search/page.tsx:25-80 | the result keeps the input's order |
| PublicationSearch.FilterPublicationsDistributes | app/logged/pages/publications/search/page.tsx:25 | filtering a concatenation filters each part, in order |
| PublicationSearch.FilterPublicationsSingle | app/logged/pages/publications/search/page.tsx:25 | a single publication stays exactly when it passes every filter |
| PublicationSearch.FilterPublicationsCount | app/logged/pages/publications/search/page.tsx:25 | a passing publication occurs in the result as often as in the input, and a failing one not at all |
| PublicationSearch.FiltersKeepTheSamePublications | app/logged/pages/publications/search/page.tsx:17-34 | dropping empty parameters does not change which publications pass |
| PublicationSearch.NoFiltersKeepAll | app/logged/pages/publications/search/page.tsx:25-80 | with no parameter set, every publication is kept |
| PublicationSearch.MalformedBoundExcludesAll | app/logged/pages/publications/search/page.tsx:38-60 | a date bound lacking its year or month part excludes every publication |
| PublicationSearch.DateBoundExcludesUndated | app/logged/pages/publications/search/page.tsx:42-43 | with a date bound, a publication without a usable date is excluded |
| PublicationSearch.RevistaAndNumeroMeaning | app/logged/pages/publications/search/page.tsx:27-34 | a magazine filter keeps exactly that magazine; a number filter compares `String(número)` |
| PublicationSearch.BoundTextParts | app/logged/pages/publications/publication_components/PublicationFilter.tsx:65-70 | a bound the panel writes splits into its year and month, which read back as numbers |
| PublicationSearch.FromParsedMeaning | app/logged/pages/publications/search/page.tsx:48-51 | read values keep a date iff its (year, month) is not before the bound's, with the bound year as the constructor takes it |
| PublicationSearch.DateFromMeaning | app/logged/pages/publications/search/page.tsx:37-55 | for years from 100 on, `dateFrom` keeps a date iff its (year, month) is not before the bound's |
| PublicationSearch.ToParsedMeaning | app/logged/pages/publications/search/page.tsx:70-73 | read values keep a date iff its (year, month) is not after the bound's |
| PublicationSearch.DateToMeaning | app/logged/pages/publications/search/page.tsx:58-77 | for years from 100 on, `dateTo` keeps a date iff its (year, month) is not after the bound's, the whole month included |
| PublicationSearch.TwoDigitBoundYear | app/logged/pages/publications/search/page.tsx:48 | a bound year from 0 to 99 is compared as 1900 to 1999 |
| PublicationFilter.ParamList | app/logged/pages/publications/publication_components/PublicationFilter.tsx:56-73 | at most four non-empty entries, in the order revista, número, dateFrom, dateTo |
| PublicationFilter.KeysAreDistinct | app/logged/pages/publications/publication_components/PublicationFilter.tsx:59-70 | each kind of entry carries its own key: revista, número, dateFrom and dateTo rank 0 to 3 |
| PublicationFilter.EntryPresentIffSelected | app/logged/pages/publications/publication_components/PublicationFilter.tsx:59-70 | each entry appears iff its values are set (a date bound needs both month and year) and is then built from them |
| PublicationFilter.CanFilterIffParams | app/logged/pages/publications/publication_components/PublicationFilter.tsx:56-84 | `canFilter` holds iff the parameter string is non-empty |
| PublicationFilter.CanFilterNeedsAnyFilter | app/logged/pages/publications/publication_components/PublicationFilter.tsx:83-84 | `canFilter` implies `hasAnyFilter`, but half a date bound has a filter and cannot filter |
| PublicationFilter.ParamsSplitBack | app/logged/pages/publications/publication_components/PublicationFilter.tsx:56-73 | with no `&` in the values, splitting the string on `&` gives the entries back |
| PublicationFilter.Collect | app/logged/pages/publications/publication_components/PublicationFilter.tsx:30-40 | a value is collected iff some publication contributes it |
| PublicationFilter.InsertSorted | app/logged/pages/publications/publication_components/PublicationFilter.tsx:42-47 | adding to a strictly sorted list keeps it strictly sorted, with exactly the old values and the new one |
| PublicationFilter.SortedIsUnique | app/logged/pages/publications/publication_components/PublicationFilter.tsx:42-47 | two strictly sorted lists with the same values are equal, so the offered list is the sorted set |
| PublicationFilter.ReverseSorted | app/logged/pages/publications/publication_components/PublicationFilter.tsx:44 | reversing an ascending list gives a descending list of the same values |
| PublicationFilter.MonthValuesAreTwoDigits | app/logged/pages/publications/publication_components/PublicationFilter.tsx:33 | the months of valid dates are two-digit numerals from 01 to 12 |
| PublicationFilter.PublicationFilterState.constructor | app/logged/pages/publications/publication_components/PublicationFilter.tsx:11-17 | closed, nothing selected |
| PublicationFilter.PublicationFilterState.ToggleFilter | app/logged/pages/publications/publication_components/PublicationFilter.tsx:19-21 | flips the open flag and keeps every selection |
| PublicationFilter.PublicationFilterState.BuildSearchParams | app/logged/pages/publications/publication_components/PublicationFilter.tsx:56-73 | the entries joined with `&`, non-empty iff `canFilter` |
| PublicationFilter.PublicationFilterState.GetFilterHref | app/logged/pages/publications/publication_components/PublicationFilter.tsx:75-81 | `#` iff nothing can be filtered; otherwise the search prefix and an encoding that decodes back to the parameter string |
| PublicationFilter.SortedValues | app/logged/pages/publications/publication_components/PublicationFilter.tsx:30-40 | the list built after any number of publications is strictly ascending |
| PublicationFilter.SortedValuesCollect | app/logged/pages/publications/publication_components/PublicationFilter.tsx:30-40 | after the first `k` publications, the list holds exactly the values collected from them |
| PublicationFilter.SortedValuesOfAll | app/logged/pages/publications/publication_components/PublicationFilter.tsx:24-48 | after the whole list, the list holds exactly the values collected from every publication |
| PublicationFilter.UniqueValues | app/logged/pages/publications/publication_components/PublicationFilter.tsx:24-48 | months ascending, years descending, magazines and numbers ascending, each strictly ordered (so duplicate-free) and holding exactly the collected values |
| UriEncode.EncodedAlphabet | app/logged/pages/publications/publication_components/PublicationFilter.tsx:78 | the encoding holds only unreserved characters, `%` and upper-case hexadecimal digits |
| UriEncode.UnreservedUnchanged | app/logged/pages/publications/publication_components/PublicationFilter.tsx:78 | a string of unreserved characters encodes to itself |
| UriEncode.OverlongRejected | app/logged/pages/publications/publication_components/PublicationFilter.tsx:78 | the decoder refuses the overlong `%C0%AF` instead of reading it as `/`, as `decodeURIComponent` throws on it |
| UriEncode.DecodeEncode | app/logged/pages/publications/publication_components/PublicationFilter.tsx:78 | decoding the encoding gives the string back |
| UriEncode.DecodeEncodeChar | app/logged/pages/publications/publication_components/PublicationFilter.tsx:78 | one encoded character followed by anything decodes to the character followed by that thing's decoding |

## Findings

| source | as written | input that shows it | evidently intended | confidence | as-written member | corrected member |
|---|---|---|---|---|---|---|
| proxy.js:76 | the cache key keeps only the first 50 characters of each token, so a positive entry vouches for every pair sharing those prefixes | first request: id token of 50 `h` then `1`, which verifies; second request within five minutes: id token of 50 `h` then `2`, which does not verify, same access token | a cache hit only for the very pair that verified or was issued | not executed; JSON Web Tokens signed under one key share a long header prefix | ProxyGate.PrefixKeyAdmitsForeignPair | ProxyGate.FullKeyHitImpliesAuthorized |

`ProxyGate.Decide` takes the key scheme as a parameter. `Prefix50` is the source's key. `FullPair` is a length-prefixed key over both whole tokens, proved injective, under which a cache hit implies the pair was authorized.

## Left out

- JWT verification, the refresh-token exchange and the validation endpoint are outside the model. Each is an oracle input (`verifyOk`, `refresh`, and the validation `fetch`'s answer: ok, not ok, or a rejected promise).
- `Promise.all` is left out. The two verifications count as one outcome, and requests are handled one at a time, with no concurrent access to the cache.
- The clock is left out. Each gate request and each cache call reads one `now`, while the source reads `Date.now()` separately in each helper.
- The route matchers and `NextResponse` internals are left out. The gate's answer is a decision plus the cookies written.
- `ProxyGate.RefreshPath`: `expires_in` is an integer or absent. JavaScript's `||` fallback for other falsy values (`NaN`, "") is not modelled.
- File I/O and JSON (de)serialisation in the services are left out. A store file is either a parsed array of records or unreadable. A parsed value that is not an array, and records that are not objects, are not modelled.
- Store writes are left out. A write is a boolean input; when it fails, the in-memory array change is lost, as in the source, and the error propagates.
- `RecordStore.Store.Create`, `RecordStore.Store.Update`, `RecordStore.Store.Delete`: a failed write is taken to leave the file as it was. `writeFileSync` opens the file for writing, which truncates it, so a write that fails part-way can leave it empty or cut short; that is not modelled.
- The article listing is left out. It is given as the articles' `id_article` strings. A non-string id is not modelled, and a missing one is "".
- `new Date().getFullYear()` is left out. The current year is an input, and it is taken to be non-negative.
- `generateContentId` uses the clock and randomness, so a fresh id is an input.
- `alert`, `confirm` and the error-message extraction in `handleFinalSubmit` are presentation. The `confirm` answer is an input; alerts are not modelled.
- `router.push` and `router.refresh` are not modelled.
- `CreatePage.CreateArticlePage.FinalSubmit`: `isSubmitting` is true only while the submission runs. The method does not model that flag, only the ordered requests and their outcome.
- `new Date(pub.date)` parsing and time zones are left out. A publication's date is absent, unparsable, or a calendar (year, month, day).
- `Date`'s range limit of ±8.64·10^15 ms is left out. Years are unbounded.
- `PublicationSearch.FromOk`, `PublicationSearch.ToOk`: the publication's year and month enter as numbers. The source writes them with `String`/`padStart` and reads them back with `parseInt`. That round trip is proved separately (`Publications.ParseIntOfIntToString`, `Publications.MonthStringParses`) rather than inlined.
- `PublicationFilter.UniqueValues`: the source fills `Set`s and sorts `Array.from` of them. The model inserts into sorted lists, which gives the same lists (`PublicationFilter.SortedIsUnique`).
- String order is code-point order. JavaScript's default sort compares UTF-16 code units, which differs only for characters outside the Basic Multilingual Plane.
- Strings are sequences of Unicode scalar values. Lone surrogates, on which `encodeURIComponent` throws `URIError`, cannot occur.
- The select `onChange` setters and the rest of the JSX rendering are left out. The filter fields are the state the setters write.
- Numbers are integers. A floating-point `número`, and its `String` rendering, are not modelled.
- `ArticleId.GeneratedIdIsFresh`: proved for years from 10 on. For a one-digit year, the filter pattern admits `article_<Y>_…`, but the ordinal pattern needs two year digits. So no ordinal is captured, and the generated id `article_<Y>_000000001` can repeat an existing one.
- A modal position is a non-negative index. `splice` with a negative start, which counts from the end, is not modelled.
