# SCCF website: a verified model of its core

This project is a Dafny model of the logic in the SCCF non-profit website. It also proves properties of that logic. The model covers:

- **The browser scripts:**
  - the header's scroll behaviour and the active navigation link;
  - form validation;
  - the rotating hero picture grid;
  - media URL resolution, HTML escaping, placeholders and the gallery built from projects;
  - the chat widget with its translation cache;
  - the news page: category filter, pagination, featured article, newsletter and detail view.
- **The two serverless proxies:** the chat handler and the translation handler, which talk to an AI text service.
- **The two Flask admin servers:**
  - the project server: upload, publish, unpublish, republish, ordering, detail and gallery;
  - the news server: create, read, update, delete, with uploads.
- **The publishing script**, which rewrites upload URLs in the public projects file.

The modules follow the program's components:

| module | models |
|---|---|
| `Wrappers`, `Strings`, `Seqs`, `Records` | shared values: Option; trimming under the JavaScript and the Python whitespace sets; ASCII lower-casing; split and join; integer text; filtering; the project and article records |
| `Header`, `Forms`, `Hero`, `Media` | assets/main.js |
| `ChatWidget` | assets/chatbot.js |
| `NewsPage` | assets/news.js |
| `Proxy`, `ChatApi`, `TranslateApi` | api/chat.js, api/translate.js, and the language detection they share |
| `Uploads`, `ProjectAdmin` | server/app.py |
| `NewsAdmin` | server/news_app.py |
| `PublishAssets` | scripts/publish_assets.py |

**How the model represents the program:**

- **Stateful objects are classes** whose methods change their fields and state the whole new state: `HeaderState`, `HeroImageManager`, `TranslationService`, `ChatBot`, `NewsHub`, `ProjectStore` and `NewsStore`.
- **Loops stay loops**, with invariants. Examples are the validation passes over an array of error marks, the collision-free file naming, the gallery collection and the in-place URL rewrite.
- **Values the program only observes become parameters.** These are the service reply, the fetch result, whether an element exists, `secure_filename`, the uuid and the date.
- **A JSON field that may be absent or null becomes an `Option`.**

## Model

| member | source | states |
|---|---|---|
| Header.HeaderState.constructor | assets/main.js:56-60 | The state starts at the top of the page, with the last offset 0 (line 10). The header is marked visible at load, and neither `scrolled` nor `hidden` is set. |
| Header.HeaderState.HandleScroll | assets/main.js:13-39 | `scrolled` holds exactly when the offset exceeds 50. The header hides exactly when scrolling down past 100 and is visible otherwise. The last offset is stored clamped at 0. |
| Header.LastCovering | assets/main.js:208-216 | Returns the last section whose band covers the point, or None exactly when no section covers it. |
| Header.NavLinkOnScroll | assets/main.js:204-224 | A manual click changes nothing. Otherwise the active link is "#" plus the id of the last section covering the offset plus 150, or no link when none covers it. |
| Forms.IsValidEmailIff | assets/main.js:297-298 | The e-mail test holds exactly when the text matches `[^\s@]+@[^\s@]+\.[^\s@]+` as a whole. This is proved in both directions, against a pattern stated by its parts. |
| Forms.ValidEmailMatches | assets/main.js:297-298 | Direction one: a valid address can be split into the three parts of the pattern. |
| Forms.MatchingEmailIsValid | assets/main.js:297-298 | Direction two: text of the pattern's shape passes the test. |
| Forms.ValidateForm | assets/main.js:281-305 | The form is valid exactly when no field fails the required rule or the e-mail rule. Each field's error mark is stated: set or cleared on required fields, only ever added by the e-mail rule. |
| Forms.MarkRequired | assets/main.js:285-292 | Each required field's mark is set or cleared by whether its trimmed value is empty. Other fields keep their mark. The pass is ok exactly when no required field is blank. |
| Forms.MarkEmails | assets/main.js:295-302 | A non-empty e-mail field with an invalid address gets its mark added. No mark is ever cleared. The pass is ok exactly when no such field exists. |
| Hero.CategoryNamed | assets/main.js:430-436 | The key names a category exactly when it is one of the five `imageFolders` keys. |
| Hero.HeroImageManager.constructor | assets/main.js:429-490 | Runs `setupImageArrays`, `reassignGridItems` and `loadInitialImages`. Only education has pictures, every slot is assigned education, and the interval is 30000 ms. Education's index has moved on once per present slot, modulo 4. Every other index is 0. The slots show the pictures of that first round. |
| Hero.HeroImageManager.FirstRound | assets/main.js:483-490 | After the initial load only education's index has moved: it is the number of present slots modulo 4. |
| Hero.HeroImageManager.UpdateGridItemImage | assets/main.js:493-527 | A missing slot changes nothing. An empty list shows the fallback and keeps the index. Otherwise the slot shows the indexed picture, or the fallback when the load fails, and the index advances modulo the list length. |
| Hero.HeroImageManager.RotateAllImages | assets/main.js:551-561 | After one round over the five slots, each category's index has advanced by the number of present slots showing it, modulo its list length. The slots show what `Shown` gives for the round. |
| Hero.ShownAt | assets/main.js:551-556 | Each slot is visited once. A present slot shows its own new picture, and a missing slot keeps what it showed. |
| Hero.ShownAfterRound | assets/main.js:493-527 | After a round, a present slot whose category has pictures and whose picture loads shows picture (index + earlier visits) mod length. Otherwise it shows the fallback. |
| Hero.HeroImageManager.RotateSlot | assets/main.js:552-555 | One step of the round takes the indexes and the shown pictures from the state after i slots to the state after i + 1. |
| Hero.AdvancedCounts | assets/main.js:526 | Closed form of n stepwise advances: the start index plus the visit count, modulo the list length. A category with no pictures is unchanged. |
| Hero.HeroImageManager.AddImages | assets/main.js:564-568 | A known category gets the pictures appended. An unknown key changes nothing. |
| Hero.HeroImageManager.ReplaceImages | assets/main.js:571-580 | A known category gets the new list and index 0, and the grid is reassigned. An unknown key changes nothing. |
| Hero.HeroImageManager.ReassignGridItems | assets/main.js:582-601 | Each slot shows its original category when that category has pictures, and education otherwise. |
| Hero.ReassignedGrid | assets/main.js:591-600 | The loop over the slots computes the reassignment `Reassigned` describes. |
| Hero.ReassignStep | assets/main.js:595-599 | Each slot of the loop changes only that slot's assignment. |
| Hero.HeroImageManager.SetShuffleInterval | assets/main.js:634-636 | Only the rotation period changes. |
| Media.EscapeText | assets/main.js:952-956 | The escaped text holds none of `<`, `>`, `"` or `'`, and is never shorter. |
| Media.UnescapeEscape | assets/main.js:952-956 | Escaping loses nothing: decoding the five entities gives back the input. |
| Media.EscapeUnchangedIff | assets/main.js:952-956 | Escaping leaves a text unchanged exactly when it has no markup character. |
| Media.ResolveMediaRules | assets/main.js:859-870 | The four rules: empty, `/uploads/` to local assets whatever the API origin, another root path prefixed with the origin, anything else kept. |
| Media.ResolveMediaIdempotent | assets/main.js:859-870 | Resolving a resolved URL again changes nothing, for the two origins `API_BASE` can take. |
| Media.Hash | assets/main.js:857 | The `>>>0` hash stays an unsigned 32-bit value. |
| Media.PickPlaceholder | assets/main.js:850-858 | The loop computes the 31-multiplier hash over UTF-16 units. The chosen path is the placeholder at that hash modulo the list length. |
| Media.TruncateBound | assets/main.js:1031-1034 | For a positive limit, the result fits the limit. It is the trimmed text when that fits, and otherwise its first n - 1 characters plus an ellipsis. |
| Media.TitleSize | assets/main.js:1163-1174 | The title size is one of the four percentages. |
| Media.TitleSizeAntitone | assets/main.js:1163-1174 | A longer trimmed title never gets a larger size. |
| Media.DeriveGalleryFromProjects | assets/main.js:999-1008 | The loop yields, project after project, the main picture (main image, else image) then each gallery image, resolved. |
| Media.CollectProjectItems | assets/main.js:1001-1006 | The items of one project, in order. |
| Media.DerivedGalleryShape | assets/main.js:999-1008 | The gallery has exactly the counted items. Each item carries the id and category of a project it came from. |
| ChatWidget.TranslationService.constructor | assets/chatbot.js:20-28 | The widget starts in English, with an empty cache. |
| ChatWidget.TranslationService.Translate | assets/chatbot.js:30-74 | Blank text is returned as it is. A cached key returns the cached text. Fallback mode returns the text. Only a usable reply is cached and returned; any failure returns the text. Existing entries never change, and "" comes back only for "". |
| ChatWidget.CacheKeyInjective | assets/chatbot.js:34 | Two keys are equal only for equal text and language, when language codes hold no `_`. |
| ChatWidget.TranslationService.TranslatePage | assets/chatbot.js:77-90 | Every element records its original text. A blank original is shown as it is, and a pair cached before the pass is shown from the cache. In fallback mode the original is shown and the cache is unchanged. Otherwise the cached translation is shown once an element up to this one with the same original got a usable reply, and the original when none did. Every entry the pass adds is the usable reply of an element whose original it keys. Old entries are kept, and the current language becomes the target. |
| ChatWidget.OriginalIsStable | assets/chatbot.js:84-88 | Translating again starts from the recorded original, so translations never compound. |
| ChatWidget.LastN | assets/chatbot.js:331 | `slice(-n)` is the last n entries, or all of them. |
| ChatWidget.LastNKeepsNewest | assets/chatbot.js:444 | The saved window holds at most n turns and always ends with the newest turn. |
| ChatWidget.FallbackResponse | assets/chatbot.js:367-384 | The keyword reply is one of the five canned replies. |
| ChatWidget.FallbackPriority | assets/chatbot.js:366-384 | The keywords are checked in the order project, volunteer, donat, contact: the reply is that of the first keyword the lower-cased message holds at some position, whatever follows it. The default reply is given exactly when the message holds none of them. |
| ChatWidget.FallbackIgnoresCase | assets/chatbot.js:368 | The keyword reply does not depend on letter case. |
| ChatWidget.ChatBot.constructor | assets/chatbot.js:96-98 | The bot starts closed, with no history and an empty input. |
| ChatWidget.ChatBot.Toggle | assets/chatbot.js:250-252 | Flips the open state and nothing else. |
| ChatWidget.ChatBot.Open | assets/chatbot.js:254-260 | Opens the bot and changes nothing else. |
| ChatWidget.ChatBot.Close | assets/chatbot.js:262-266 | Closes the bot and changes nothing else. |
| ChatWidget.ChatBot.SelectLanguage | assets/chatbot.js:232-239 | Sets the current language and changes nothing else. |
| ChatWidget.ChatBot.SaveConversation | assets/chatbot.js:442-448 | Stores the last 20 turns. |
| ChatWidget.ChatBot.SendMessage | assets/chatbot.js:286-364 | Blank input does nothing. Otherwise the trimmed message is appended and the input cleared. Fallback mode answers locally. Proxy mode sends the last 10 turns with the language. A reply appends the answer, and a failure shows the apology. The last 20 turns are saved. |
| ChatWidget.ChatBot.Submit | assets/chatbot.js:303-363 | The same after the blank check, for a given message. |
| ChatWidget.ChatBot.AnswerLocally | assets/chatbot.js:310-319 | Appends the keyword reply as the assistant's turn and bubble. |
| ChatWidget.ChatBot.AnswerFromProxy | assets/chatbot.js:322-361 | The request carries the last 10 turns. A successful reply is appended. Otherwise only the apology bubble for the current language is added. |
| Proxy.LangOfCode | api/chat.js:35-36 | A code names a language exactly when it is "en", "si" or "ta". |
| Proxy.ScanBlock | api/chat.js:27-30 | The scan finds a character of the block exactly when the text has one. |
| Proxy.DetectLanguage | api/chat.js:26-32 | Sinhala exactly when a Sinhala-block character occurs. Tamil exactly when none does but a Tamil-block one occurs. English otherwise. |
| ChatApi.ResponseLang | api/chat.js:35-36 | The detected language when it is not English, else the language sent. |
| ChatApi.BuildMessages | api/chat.js:82-103 | The list holds the system prompt as the user, the greeting in the reply language as the model, one message per history turn with its role, then the message. |
| ChatApi.ConversationIsBuilt | api/chat.js:82-103 | Any list of that shape is the conversation, so the built list is unique. |
| ChatApi.HandleChat | api/chat.js:10-164 | OPTIONS gives 200 and another method 405. A missing or empty message gives 400. A reply with text gives its trimmed answer and the language. Any other reply gives the apology in the sent language, English when that is not a code. |
| TranslateApi.LanguageName | api/translate.js:27-33 | An unknown code names itself. |
| TranslateApi.HandleTranslate | api/translate.js:10-86 | The status is 200 exactly for the preflight and a translation. 405 and 400 hold exactly in their cases. A translation is the trimmed reply, or the text when the reply is empty, with the detected source language. 500 holds exactly on a missing body or a failed service. |
| NewsPage.OfCategory | assets/news.js:82-84 | The articles kept are exactly those whose category matches without case. |
| NewsPage.FeaturedPlacement | assets/news.js:50 | The featured article is left out of "all" but heads its own category. |
| NewsPage.Display | assets/news.js:76-131 | The empty state holds exactly when nothing matches. Otherwise the first min(page·9, n) matches are shown, and "load more" is visible exactly while matches remain unshown. |
| NewsPage.LoadMoreExtends | assets/news.js:159-162 | The next page keeps the cards shown and adds up to 9 more. |
| NewsPage.SelectShowsOnePage | assets/news.js:150 | After a filter change at most one page is shown. |
| NewsPage.TruncateText | assets/news.js:268-271 | Text that fits is unchanged. Otherwise the result ends in "..." and is at most the limit plus 3 long. |
| NewsPage.TruncateTextKeeps | assets/news.js:268-271 | A long text becomes a slice of its first `maxLength` characters, then "...". The slice starts and ends with a non-space character, and everything cut before it and after it, up to `maxLength`, is whitespace: the slice is the trim of `substr(0, maxLength)`. |
| NewsPage.KeptLength | assets/news.js:270 | The kept part is no longer than the limit. |
| NewsPage.SubmitNewsletter | assets/news.js:167-187 | The subscription succeeds exactly when the address matches the pattern. |
| NewsPage.NewsHub.constructor | assets/news.js:6-9 | The page starts on page 1 of "all", with no news. |
| NewsPage.NewsHub.Load | assets/news.js:19-40 | The list becomes the loaded news. |
| NewsPage.NewsHub.SelectCategory | assets/news.js:145-152 | The category is set and the page reset to 1. |
| NewsPage.NewsHub.LoadMore | assets/news.js:159-162 | The page advances by one. |
| NewsPage.NewsHub.Featured | assets/news.js:43-73 | Present exactly when news exist, and then it is the first article. |
| NewsPage.NewsHub.Detail | assets/news.js:190-193 | Finds the first article with the id, as `find` does, or none exactly when no article has it. |
| Uploads.AllowedFileIff | server/app.py:60-61 | A name is allowed exactly when the text after its last dot is, lower-cased, one of the five extensions. |
| Uploads.SplitExt | server/app.py:245 | `splitext` splits the name into stem and extension. The extension is empty or one dot-led component without '/'. |
| Uploads.CandidateDistinct | server/app.py:249 | Numbered names differ from the original and from each other. |
| Uploads.UniqueFilename | server/app.py:244-251 | The loop returns the first free name: the original when it is free, else `base-k.ext` for the least k whose name is free. |
| Uploads.FirstFreeUnique | server/app.py:248-251 | That first free name is unique. |
| ProjectAdmin.PublishedConcat | server/app.py:48-57 | The public copy keeps the stored order of the published projects. |
| ProjectAdmin.FirstProject | server/app.py:84-86 | Returns the first project whose id text matches, or None exactly when none does. |
| ProjectAdmin.PriorityOf | server/app.py:147-151 | The integer the stripped text spells, and 0 when it is not one. |
| ProjectAdmin.PriorityOfIntText | server/app.py:205-208 | The priority read back from an integer's text is that integer. |
| ProjectAdmin.ParseTags | server/app.py:209-210 | Every tag is non-empty, stripped and comma-free. |
| ProjectAdmin.ParseJoinedTags | server/app.py:209-210 | Parsing the comma-joined tags gives them back. |
| ProjectAdmin.TagsOfTags | server/app.py:210 | Already clean tags pass through unchanged. |
| ProjectAdmin.CollectItems | server/app.py:169-182 | The inner loop yields the project's main image, then each gallery URL. |
| ProjectAdmin.FrontEndGalleryAgrees | server/app.py:165-183 | The server gallery, resolved by the front end, is the gallery the front end derives itself, when no project relies on `image`. |
| ProjectAdmin.SaveGallery | server/app.py:257-271 | The allowed files among the first 15 are saved: the batch is cut to 15 before the filter. Each is saved under the first name free once the earlier saves exist. |
| ProjectAdmin.SavedNamesFresh | server/app.py:257-271 | The saved names are new to the directory and pairwise distinct. |
| ProjectAdmin.SaveMainImage | server/app.py:240-255 | An allowed image is saved under its first free name and becomes the main URL. Otherwise the stripped `image_url` is used. |
| ProjectAdmin.FieldIsStripped | server/app.py:195-227 | Every text taken from the form has no outer whitespace. |
| ProjectAdmin.NewProject | server/app.py:273-290 | The record is published exactly when "publish now" was set. |
| ProjectAdmin.SaveFiles | server/app.py:240-290 | The main image, then the gallery, are saved in turn, and the record is built from the saved names. |
| ProjectAdmin.UploadUrls | server/app.py:271 | One URL per saved name. |
| ProjectAdmin.ProjectStore.constructor | server/app.py:33-40 | The store holds the loaded projects and public copy. |
| ProjectAdmin.ProjectStore.FindProject | server/app.py:104-105 | The loop finds the first project with the id. |
| ProjectAdmin.ProjectStore.SetPublished | server/app.py:100-127 | An unknown id changes nothing. Otherwise that project's flag is set, and the public copy is rewritten from the new list. |
| ProjectAdmin.ProjectStore.UpdateOrdering | server/app.py:137-162 | An unknown id changes nothing. Otherwise featured is set to whether the field is non-empty and the priority is parsed, and the public copy is rewritten. |
| ProjectAdmin.ProjectStore.Republish | server/app.py:130-134 | The public copy becomes the published projects. |
| ProjectAdmin.ProjectStore.Add | server/app.py:292-295 | The record is appended. The public copy is rewritten only when publishing. |
| ProjectAdmin.ProjectStore.ProjectDetail | server/app.py:82-87 | An existing project gives 200 with its record. Otherwise 404. |
| ProjectAdmin.ProjectStore.Gallery | server/app.py:165-183 | The items of every project, project after project. |
| ProjectAdmin.ProjectStore.Upload | server/app.py:191-297 | An empty or duplicate id gives 400 and changes nothing. Otherwise the files are saved in turn, the record is appended as the last project, and the public copy is rewritten exactly when "publish now" is set. |
| NewsAdmin.SaveUploadedFile | server/news_app.py:41-50 | A path exactly for an allowed file: `/uploads/news/` plus the hex, `_` and the secured name. |
| NewsAdmin.SavedPathsCount | server/news_app.py:98-105 | One path per allowed file, each under the news upload folder. |
| NewsAdmin.SavedPathsConcat | server/news_app.py:98-105 | The saved paths of two batches follow each other. |
| NewsAdmin.SaveAdditionalImages | server/news_app.py:98-105 | The loop collects the saved paths of the allowed files, in order. |
| NewsAdmin.ImagePath | server/news_app.py:91-95 | There is a path exactly when a file was sent and allowed. |
| NewsAdmin.NewArticle | server/news_app.py:108-118 | The article carries the form texts, "SCCF Team" for a missing author, the given id and date, a list of images, and an image exactly when one was saved. |
| NewsAdmin.UpdatedArticle | server/news_app.py:141-168 | Id and date are kept. Each text follows the form when sent and is kept otherwise. A saved image becomes the article's image, and without one the old image stays. New images are appended. |
| NewsAdmin.EmptyUpdateKeeps | server/news_app.py:141-168 | An empty form with no files leaves the article unchanged. |
| NewsAdmin.UpdateTextsIdempotent | server/news_app.py:141-145 | Applying the same form twice gives the same texts, and earlier images stay a prefix. |
| NewsAdmin.RemovedIff | server/news_app.py:188-189 | An article remains exactly when it was there with another id. The list gets shorter when the id was found. |
| NewsAdmin.StripSlashes | server/news_app.py:194 | `lstrip('/')` removes exactly the leading slashes. |
| NewsAdmin.ImageFiles | server/news_app.py:192-208 | The files removed are the image, then the images, without leading slashes. |
| NewsAdmin.NewsStore.constructor | server/news_app.py:28-33 | The store holds the loaded news. |
| NewsAdmin.NewsStore.Find | server/news_app.py:67 | The loop finds the first article with the id. |
| NewsAdmin.NewsStore.GetById | server/news_app.py:63-71 | 200 with the article, or 404. |
| NewsAdmin.NewsStore.Create | server/news_app.py:73-128 | A missing title, category or content gives 400 and changes nothing. Otherwise 201, with the new article appended. |
| NewsAdmin.NewsStore.Update | server/news_app.py:130-175 | An unknown id gives 404. Otherwise only that article changes, to its updated form. |
| NewsAdmin.NewsStore.Delete | server/news_app.py:177-213 | An unknown id gives 404. Otherwise the articles with that id are gone, and the removed files are the found article's images. |
| NewsAdmin.FirstMatch | server/news_app.py:182 | `next(...)` finds the first article with the id. |
| Records.FindArticle | server/news_app.py:67 | Returns the first index with the id, or None exactly when none has it. |
| PublishAssets.MapUrl | scripts/publish_assets.py:36-41 | A URL changes exactly when it starts with `/uploads/`, and then it gains the `assets` prefix. |
| PublishAssets.MapUrlIdempotent | scripts/publish_assets.py:36-41 | A mapped URL is not rewritten again. |
| PublishAssets.ProjectTouchedIff | scripts/publish_assets.py:43-49 | `changed` is set by a project exactly when the rewrite changes it. |
| PublishAssets.ChangedIff | scripts/publish_assets.py:50-54 | The file is written exactly when the rewrite changes the data. |
| PublishAssets.RewriteIdempotent | scripts/publish_assets.py:30-54 | A second run changes nothing and writes nothing. |
| PublishAssets.RewriteKeepsResolvedUrl | scripts/publish_assets.py:36-41 | The site shows the same picture before and after the rewrite. |
| PublishAssets.RewriteKeepsShape | scripts/publish_assets.py:43-49 | The gallery keeps its length and its resolved URLs, and the other fields are untouched. |
| PublishAssets.RewriteInPlace | scripts/publish_assets.py:43-49 | Each project is rewritten in place, and `changed` tells whether any URL was rewritten. |
| PublishAssets.ProjectChanged | scripts/publish_assets.py:43-49 | The scan reports exactly whether a URL of the project needs rewriting. |
| PublishAssets.RewriteProjectsJson | scripts/publish_assets.py:30-54 | A missing file writes nothing. Otherwise the rewritten data are written exactly when they differ from the data read. |
| Strings.TrimStartCuts | server/app.py:195 | Trimming removes exactly the leading whitespace. |
| Strings.TrimEndCuts | server/app.py:195 | Trimming removes exactly the trailing whitespace. |
| Strings.TrimIsSlice | assets/chatbot.js:287 | The trimmed text is the slice between the outer whitespace runs. |
| Strings.TrimEmptyIffBlank | assets/chatbot.js:31 | A text trims to empty exactly when it is all whitespace. |
| Strings.TrimIdempotent | server/app.py:147 | Trimming twice is trimming once. |
| Strings.ContainsIff | assets/chatbot.js:369-378 | `includes` finds a text exactly when the text appears at some position of the string. |
| Strings.JoinSplit | server/app.py:209 | Splitting then joining at the separator gives the text back. |
| Strings.SplitJoin | server/app.py:209 | Joining separator-free pieces then splitting gives the pieces back. |
| Strings.ParseIntToString | server/app.py:147-151 | `int()` reads back any integer's text. |
| Strings.NatToStringInjective | server/app.py:249 | Distinct counters have distinct texts. |
| Seqs.FilterMembers | server/app.py:53 | A comprehension filter keeps exactly the members that pass the test. |
| Seqs.FilterConcat | server/app.py:53 | Filtering distributes over concatenation, so order is kept. |

## Left out

- The DOM, CSS classes, timers (`setInterval`, debounce), `fetch`, `localStorage` and the console. Replies, element presence and load outcomes are parameters instead.
- The file system, JSON parsing and writing, and HTTP redirects and HTML pages. `wants_json` responses and flash messages are left out. Files removed by the news server are returned as a list instead of calling `os.remove`.
- Exceptions and the 500 paths of the Flask handlers, and failures of the file system. The model follows the non-throwing path.
- `copy_uploads` in scripts/publish_assets.py, which only copies a directory tree.
- `secure_filename`, `uuid4` and the clock. They are parameters: a function, a hex string and a date string.
- The fixed localized texts: the system prompt, the greetings, the apologies and the instructions per language. These are represented by which language variant is chosen.
- `formatMessage` of the chat widget, `loadConversation`, `autoDetectImages` of the hero grid, and the date sort and `formatDate` of the news page. The news list is taken in its sorted order.
- Strings are sequences of code points. Case folding is ASCII only. `int()` is modelled on ASCII digits: non-ASCII decimal digits that Python also accepts in the priority fields are read as not a number. JavaScript string lengths are UTF-16 units only in `pickPlaceholder`, elsewhere code points; the two agree on text within the Basic Multilingual Plane.
- Absent and null JSON fields are both `None`. Numeric project ids, or values of the wrong JSON type (a non-string message, a non-array history, non-string gallery entries), are not modelled. A missing `Article` field raising `KeyError` and a null `images` list are not modelled either.
- JavaScript object lookups also find inherited keys such as `constructor` or `toString`. Hero.CategoryNamed, TranslateApi.LanguageName and ChatApi.ApologyLang treat those keys as unknown. So `replaceImages` with such a key, which in the page would add a sixth folder, changes nothing in the model. And a chat error for the language `"constructor"`, which in the handler sends a reply without its `response` field, gives the English apology in the model.
- The gallery item's `description` and `title`, which the front end copies from the project, are not part of `GalleryItem`.
- ChatWidget.ChatBot.SendMessage and ChatWidget.ChatBot.Submit: each send is modelled as finishing, the fallback reply's 1000 ms timer or the awaited proxy reply included, before the next event. The page does not block a second send while one is pending. Overlapping sends (turns interleaved in the history, a request whose last 10 turns hold a question without its answer, replies landing out of order) and a language change while a reply is pending (the apology takes the language current when the reply arrives) are not modelled.
- `MAX_CONTENT_LENGTH` and other request size limits of the Flask servers.
- Media.TruncateBound: states the bound only for a limit of at least 1. The truncate helper is defined in the gallery code but never called with another limit.
- ProjectAdmin.FrontEndGalleryAgrees: holds only for projects without an `image` field, because the server gallery reads only `main_image` while the front end falls back to `image`.
