# random-image: the image proxy branch, modelled in Dafny

`random-image.php` serves a random image. When it is requested with
`?imageonly=1`, it reads a text file of image links and keeps the lines that
survive a filter: each line is trimmed, and it is dropped if it is PHP-empty
(`""` or `"0"`), starts with `#`, or is rejected by `filter_var(...,
FILTER_VALIDATE_URL)`. If the file is missing, or no line survives, the
script answers 404 with a fixed message. Otherwise it picks one candidate
with `array_rand` and fetches it. If the fetch fails, it logs the URL and
answers with an embedded 1x1 PNG under `image/png`. If the fetch succeeds,
it answers with the fetched bytes, unchanged, under the media type that
`finfo` sniffs from those bytes. It never uses the Content-Type the upstream
server claims.

The project has four modules:

- `PhpString` (`php_string.dfy`): PHP `trim` with its default character
  list, `empty` on a string, and the "starts with `#`" test. `Trim` is
  characterised as the unique infix with no strippable character at either
  end and only strippable characters around it. It is also proved idempotent.
- `LinkList` (`link_list.dfy`): the filter. `ValidUrls` is the specification
  function. `CollectValidUrls` is the script's `foreach` loop, proved equal
  to it. The lemmas show that the result is exactly the trimmed lines at the
  passing positions, in file order, and that the filter works line by line
  and is idempotent.
- `ImageProxy` (`image_proxy.dfy`): the decision chain. `Serve` is the whole
  branch as a function of its environment. `HandleImageRequest` is the
  script step by step, proved equal to `Serve`. The lemmas state each of
  the three terminal outcomes exactly.
- `Wrappers` (`wrappers.dfy`): `Option` and `Result`.

The environment is abstract. Two things are inputs: whether the links file
exists, and its lines. The URL validator, the HTTP fetch and the MIME sniffer
are the function fields of `Env`. A fetch returns `None` for PHP's `false`,
or the upstream's body together with the Content-Type it claims. The random
index is an oracle `rand`, and the only thing assumed about it is what
`array_rand` promises: for a list of `n > 0` entries it returns a key below `n`.
`Reply` records the outcome, the URLs fetched and the lines logged. That is
how "nothing is fetched" and "exactly one log line" can be stated.

A fetch that returns an empty body is served as a successful proxy with an
empty body. The script only tests `$imageData === false`, and the model
follows the script. An empty body is therefore proxied as an empty 200 reply
under the type sniffed from the empty buffer; it is not treated as a failed
fetch.

## Model

| member | source | states |
|---|---|---|
| `PhpString.IsTrimChar` | random-image.php:20 | true exactly for the six characters PHP's `trim` strips by default: space, tab, line feed, carriage return, NUL and vertical tab |
| `PhpString.PhpEmpty` | random-image.php:21 | true exactly for `""` and `"0"`, PHP's `empty` on a string |
| `PhpString.StartsWithHash` | random-image.php:21 | true exactly when the first character is `#`, PHP's `strpos($url, '#') === 0` |
| `LinkList.Keep` | random-image.php:21 | the whole guard on a trimmed line: not PHP-empty, not starting with `#`, and accepted by the URL validator |
| `LinkList.KeepLine` | random-image.php:20-21 | a raw line survives exactly when its trimmed text passes `Keep` |
| `ImageProxy.ArrayRandInRange` | random-image.php:32 | the random-index oracle returns, for a list of `n > 0` entries, an index below `n`, which is what `array_rand` promises |
| `PhpString.Trim` | random-image.php:20 | the result has no strippable character at either end, and it is an infix of the line with only strippable characters around it |
| `PhpString.TrimUnique` | random-image.php:20 | that characterisation has exactly one solution, so `Trim` is fully determined by it |
| `PhpString.TrimIdempotent` | random-image.php:20 | trimming a trimmed line changes nothing |
| `LinkList.ValidUrls` | random-image.php:17-24 | the candidate list is no longer than the file, and every entry passes the three guards and has no surrounding whitespace |
| `LinkList.CollectValidUrls` | random-image.php:17-24 | the `foreach` loop that trims and appends builds exactly the list `ValidUrls` describes |
| `LinkList.ValidUrlsAreKeptLines` | random-image.php:19-23 | the candidate list is the order-preserving sequence of `trim(line)` at exactly the positions whose trimmed line passes the guards |
| `LinkList.CandidateComesFromLine` | random-image.php:20-22 | every candidate equals `trim` of some line of the file |
| `LinkList.NoCandidatesIff` | random-image.php:19-26 | the list is empty exactly when no line of the file passes the guards |
| `LinkList.SingleCandidate` | random-image.php:19-24 | with exactly one passing line, the list is that one trimmed line, whatever other lines surround it |
| `LinkList.ValidUrlsAppend` | random-image.php:19-24 | filtering two parts of a file and concatenating gives the same list as filtering the whole |
| `LinkList.ValidUrlsIdempotent` | random-image.php:19-24 | filtering the candidate list again leaves it unchanged |
| `ImageProxy.LoadCandidates` | random-image.php:10-29 | a missing file, and only a missing file, gives `SourceMissing`; with the file present, `NoValidCandidates` comes exactly when no line passes; success carries the non-empty filtered list |
| `ImageProxy.Serve` | random-image.php:10-69 | the status is 404 exactly when the file is missing or no candidate survives, and exactly when nothing is fetched; otherwise exactly one URL is fetched, the candidate at the index `array_rand` returns; at most one line is logged, and none without a fetch |
| `ImageProxy.HandleImageRequest` | random-image.php:10-69 | the step-by-step script, with the filter loop, gives the reply `Serve` describes |
| `ImageProxy.MissingFileIsNotFound` | random-image.php:10-13 | a missing file gives 404 "Image links file not found.", with no fetch and no log line |
| `ImageProxy.NoValidLineIsNotFound` | random-image.php:26-29 | with the file present, the answer is 404 "No valid image URLs found in the file." exactly when no line passes, and then nothing is fetched or logged |
| `ImageProxy.SelectedUrlIsCleanLine` | random-image.php:20-32 | the URL fetched passes all three guards, has no surrounding whitespace, and is `trim` of a line of the file |
| `ImageProxy.FetchFailureServesPlaceholder` | random-image.php:52-59 | a failed fetch gives status 200 and the placeholder under `image/png`, and exactly one log line, which is the fixed prefix followed by the attempted URL |
| `ImageProxy.FetchSuccessProxiesBytes` | random-image.php:63-68 | a successful fetch gives status 200, the fetched body byte for byte, and the media type sniffed from that body, with nothing logged |
| `ImageProxy.ClaimedTypeIgnored` | random-image.php:50-68 | two upstreams that send the same bodies with any claimed Content-Types produce the same reply |
| `ImageProxy.SingleValidLineAlwaysSelected` | random-image.php:19-32 | when one line passes, that trimmed line is the one fetched, for every random index |
| `ImageProxy.PlaceholderIsPng` | random-image.php:57-58 | the placeholder is 68 bytes: the PNG signature, then a header chunk declaring a 1x1 image, and finally the end chunk |

## Left out

- The routing test `$_GET['imageonly'] == '1'` (line 8) is not modelled. It uses PHP's loose comparison. The model starts inside the proxy branch.
- The HTML page and its client-side retry and loading script (lines 72-207) are presentation.
- Reading the links file (`file_exists`, and `file` with `FILE_IGNORE_NEW_LINES | FILE_SKIP_EMPTY_LINES`, lines 10 and 16) is filesystem I/O. The existence flag and the lines are inputs. A file that exists but cannot be read makes `file` return `false`, and the loop then sees no lines. That case is the empty `lines` input.
- The outbound request settings are network I/O, so only the fetch's result is modelled: the User-Agent, the 10-second timeout, disabled TLS verification and the stream context (lines 35-50).
- The internals of `filter_var(FILTER_VALIDATE_URL)` and of `finfo::buffer` are foreign library code. They are the uninterpreted fields `validUrl` and `sniff` of `Env`.
- `array_rand`'s uniform distribution is not modelled. Only its range is.
- Output plumbing is not modelled: `header`, `echo`, `die`, `exit` and `error_log`'s destination. The 404 answer carries only its message. Its Content-Type is left to PHP's default, which is `None` in `ContentType`. The placeholder is given as its decoded bytes, and the base64 decoding step is not modelled.
- PHP strings are byte strings, and the model uses `string` (sequences of characters). Every character `trim`, `empty` and the `#` test look at is ASCII, so nothing the filter decides depends on the difference.
