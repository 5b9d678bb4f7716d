/** The proxy branch of the script (`?imageonly=1`): load the candidate list,
    answer 404 when the links file is missing or yields no URL, otherwise pick
    one candidate, fetch it, and answer with the fetched bytes under their
    sniffed media type, or with a fixed PNG placeholder when the fetch fails.

    The environment is abstract: whether the links file exists and its lines
    are inputs; the URL validator, the HTTP fetch and the media-type sniffer
    are the function fields of `Env`; the random index is an oracle that only
    promises to stay inside the list. */
module ImageProxy {
  import opened Wrappers
  import opened PhpString
  import opened LinkList

  newtype byte = x: int | 0 <= x < 256

  type Bytes = seq<byte>

  /** What an upstream server answers: the Content-Type it claims, and the body. */
  datatype Upstream = Upstream(claimedType: Option<string>, body: Bytes)

  /** The foreign calls the script makes: `filter_var(..., FILTER_VALIDATE_URL)`,
      `@file_get_contents($url, false, $context)` (None stands for `false`),
      and `finfo::buffer` in `FILEINFO_MIME_TYPE` mode. */
  datatype Env = Env(validUrl: string -> bool, fetch: string -> Option<Upstream>, sniff: Bytes -> string)

  /** What `array_rand` promises for a non-empty list of `n` entries: a key
      inside it. */
  ghost predicate ArrayRandInRange(rand: nat -> nat) {
    forall n: nat :: 0 < n ==> rand(n) < n
  }

  const MissingFileMessage := "Image links file not found."
  const NoValidUrlsMessage := "No valid image URLs found in the file."
  const FetchFailurePrefix := "Failed to fetch image: "
  const PlaceholderType := "image/png"

  /** The eight-byte signature every PNG file starts with. */
  const PngSignature: Bytes := [0x89, 0x50, 0x4E, 0x47, 0x0D, 0x0A, 0x1A, 0x0A]

  /** The three chunks of the placeholder: a header for a 1x1 greyscale-with-alpha image,
      its compressed pixel data, and the end marker. */
  const PlaceholderHeader: Bytes := [
    0x00, 0x00, 0x00, 0x0D, 0x49, 0x48, 0x44, 0x52, 0x00, 0x00, 0x00, 0x01,
    0x00, 0x00, 0x00, 0x01, 0x08, 0x04, 0x00, 0x00, 0x00, 0xB5, 0x1C, 0x0C,
    0x02]
  const PlaceholderData: Bytes := [
    0x00, 0x00, 0x00, 0x0B, 0x49, 0x44, 0x41, 0x54, 0x78, 0xDA, 0x63, 0x64,
    0x60, 0x00, 0x00, 0x00, 0x06, 0x00, 0x02, 0x30, 0x81, 0xD0, 0x2F]
  const PlaceholderEnd: Bytes := [
    0x00, 0x00, 0x00, 0x00, 0x49, 0x45, 0x4E, 0x44, 0xAE, 0x42, 0x60, 0x82]

  /** The image embedded in the script as a base64 literal, decoded. */
  const PlaceholderPng: Bytes := PngSignature + PlaceholderHeader + PlaceholderData + PlaceholderEnd

  datatype LoadError = SourceMissing | NoValidCandidates

  /** The three ways a proxy request ends. */
  datatype Outcome =
    | NotFound(message: string)
    | Placeholder
    | Proxied(body: Bytes, mimeType: string)

  /** An outcome together with the URLs the script fetched and the lines it
      wrote to the error log. */
  datatype Reply = Reply(outcome: Outcome, fetched: seq<string>, log: seq<string>)

  function StatusCode(o: Outcome): (status: int) {
    if o.NotFound? then 404 else 200
  }

  /** The Content-Type header the script sets; None when it sets none. */
  function ContentType(o: Outcome): (header: Option<string>) {
    match o
    case NotFound(_) => None
    case Placeholder => Some(PlaceholderType)
    case Proxied(_, mime) => Some(mime)
  }

  /** The image bytes written to the client. */
  function ImageBody(o: Outcome): (body: Bytes)
    requires !o.NotFound?
  {
    if o.Placeholder? then PlaceholderPng else o.body
  }

  /** The body of the upstream answer, if there was one. */
  function BodyOf(fetched: Option<Upstream>): (body: Option<Bytes>) {
    if fetched.Some? then Some(fetched.value.body) else None
  }

  /** Lines 10-29: the file check, the filter, and the empty-list check. */
  function LoadCandidates(validUrl: string -> bool, fileExists: bool, lines: seq<string>): (r: Result<seq<string>, LoadError>)
    ensures r == Failure(SourceMissing) <==> !fileExists
    ensures r == Failure(NoValidCandidates) <==>
      fileExists && forall k :: 0 <= k < |lines| ==> !KeepLine(validUrl, lines[k])
    ensures r.Success? ==> r.value == ValidUrls(validUrl, lines) && r.value != []
  {
    if !fileExists then Failure(SourceMissing)
    else
      var validUrls := ValidUrls(validUrl, lines);
      NoCandidatesIff(validUrl, lines);
      if validUrls == [] then Failure(NoValidCandidates) else Success(validUrls)
  }

  /** Lines 10-69, the whole proxy branch, as a function of its environment. */
  function Serve(env: Env, fileExists: bool, lines: seq<string>, rand: nat -> nat): (r: Reply)
    requires ArrayRandInRange(rand)
    ensures StatusCode(r.outcome) == 404 <==> r.fetched == []
    ensures StatusCode(r.outcome) == 404 <==> !fileExists || ValidUrls(env.validUrl, lines) == []
    ensures fileExists && ValidUrls(env.validUrl, lines) != [] ==>
      r.fetched == [ValidUrls(env.validUrl, lines)[rand(|ValidUrls(env.validUrl, lines)|)]]
    ensures r.fetched == [] ==> r.log == []
    ensures |r.fetched| <= 1 && |r.log| <= 1
    ensures forall u :: u in r.fetched ==> u in ValidUrls(env.validUrl, lines)
  {
    match LoadCandidates(env.validUrl, fileExists, lines)
    case Failure(SourceMissing) => Reply(NotFound(MissingFileMessage), [], [])
    case Failure(NoValidCandidates) => Reply(NotFound(NoValidUrlsMessage), [], [])
    case Success(validUrls) =>
      var url := validUrls[rand(|validUrls|)];
      match env.fetch(url)
      case None => Reply(Placeholder, [url], [FetchFailurePrefix + url])
      case Some(upstream) => Reply(Proxied(upstream.body, env.sniff(upstream.body)), [url], [])
  }

  /** The script itself, step by step: the same branches in the same order,
      with the filter run as its loop. It repeats `Serve`'s branches on
      purpose: this is where the loop method `CollectValidUrls` is composed
      with the decision chain, and its contract ties the two together. */
  method HandleImageRequest(env: Env, fileExists: bool, lines: seq<string>, rand: nat -> nat) returns (reply: Reply)
    requires ArrayRandInRange(rand)
    ensures reply == Serve(env, fileExists, lines, rand)
  {
    if !fileExists {
      return Reply(NotFound(MissingFileMessage), [], []);
    }
    var validUrls := CollectValidUrls(env.validUrl, lines);
    if validUrls == [] {
      return Reply(NotFound(NoValidUrlsMessage), [], []);
    }
    var url := validUrls[rand(|validUrls|)];
    var imageData := env.fetch(url);
    if imageData.None? {
      return Reply(Placeholder, [url], [FetchFailurePrefix + url]);
    }
    var mimeType := env.sniff(imageData.value.body);
    reply := Reply(Proxied(imageData.value.body, mimeType), [url], []);
  }

  /** A missing links file ends the request with 404 before anything is
      filtered, selected, fetched or logged. */
  lemma MissingFileIsNotFound(env: Env, lines: seq<string>, rand: nat -> nat)
    requires ArrayRandInRange(rand)
    ensures Serve(env, false, lines, rand) == Reply(NotFound(MissingFileMessage), [], [])
    ensures StatusCode(Serve(env, false, lines, rand).outcome) == 404
  {
  }

  /** With the file present, the request ends with the "no valid URLs" 404
      exactly when no line of the file passes the filter; then nothing is
      fetched or logged. */
  lemma NoValidLineIsNotFound(env: Env, lines: seq<string>, rand: nat -> nat)
    requires ArrayRandInRange(rand)
    ensures Serve(env, true, lines, rand).outcome == NotFound(NoValidUrlsMessage) <==>
      forall k :: 0 <= k < |lines| ==> !KeepLine(env.validUrl, lines[k])
    ensures Serve(env, true, lines, rand).outcome.NotFound? ==>
      Serve(env, true, lines, rand).fetched == [] && Serve(env, true, lines, rand).log == []
  {
    var r := Serve(env, true, lines, rand);
    if LoadCandidates(env.validUrl, true, lines).Success? {
      assert !r.outcome.NotFound?;
    }
  }

  /** The one URL fetched is a trimmed line of the file that passes all three
      guards and has no surrounding whitespace. */
  lemma SelectedUrlIsCleanLine(env: Env, fileExists: bool, lines: seq<string>, rand: nat -> nat, u: string)
    requires ArrayRandInRange(rand)
    requires Serve(env, fileExists, lines, rand).fetched == [u]
    ensures Keep(env.validUrl, u) && NoSurroundingSpace(u)
    ensures exists k :: 0 <= k < |lines| && u == Trim(lines[k])
  {
    assert u in Serve(env, fileExists, lines, rand).fetched;
    CandidateComesFromLine(env.validUrl, lines, u);
  }

  /** A failed fetch is absorbed: status 200, the PNG placeholder under
      `image/png`, and exactly one log line naming the attempted URL. */
  lemma FetchFailureServesPlaceholder(env: Env, fileExists: bool, lines: seq<string>, rand: nat -> nat, u: string)
    requires ArrayRandInRange(rand)
    requires Serve(env, fileExists, lines, rand).fetched == [u]
    requires env.fetch(u).None?
    ensures Serve(env, fileExists, lines, rand).outcome == Placeholder
    ensures StatusCode(Serve(env, fileExists, lines, rand).outcome) == 200
    ensures ContentType(Serve(env, fileExists, lines, rand).outcome) == Some("image/png")
    ensures ImageBody(Serve(env, fileExists, lines, rand).outcome) == PlaceholderPng
    ensures Serve(env, fileExists, lines, rand).log == [FetchFailurePrefix + u]
    ensures Serve(env, fileExists, lines, rand).log[0][|FetchFailurePrefix|..] == u
  {
  }

  /** A successful fetch is passed through: status 200, the body byte for
      byte, and the media type sniffed from those bytes; nothing is logged. */
  lemma FetchSuccessProxiesBytes(env: Env, fileExists: bool, lines: seq<string>, rand: nat -> nat, u: string)
    requires ArrayRandInRange(rand)
    requires Serve(env, fileExists, lines, rand).fetched == [u]
    requires env.fetch(u).Some?
    ensures StatusCode(Serve(env, fileExists, lines, rand).outcome) == 200
    ensures ImageBody(Serve(env, fileExists, lines, rand).outcome) == env.fetch(u).value.body
    ensures ContentType(Serve(env, fileExists, lines, rand).outcome) == Some(env.sniff(env.fetch(u).value.body))
    ensures Serve(env, fileExists, lines, rand).log == []
  {
  }

  /** The Content-Type the upstream server claims never matters: two
      upstreams that send the same bodies produce the same reply. */
  lemma ClaimedTypeIgnored(env: Env, fetch': string -> Option<Upstream>, fileExists: bool, lines: seq<string>, rand: nat -> nat)
    requires ArrayRandInRange(rand)
    requires forall u :: BodyOf(env.fetch(u)) == BodyOf(fetch'(u))
    ensures Serve(env, fileExists, lines, rand) == Serve(env.(fetch := fetch'), fileExists, lines, rand)
  {
  }

  /** A file with a single passing line, among any number of blank, comment
      or invalid ones, always serves that line, whatever the random index. */
  lemma SingleValidLineAlwaysSelected(env: Env, lines: seq<string>, rand: nat -> nat, k: nat)
    requires ArrayRandInRange(rand)
    requires k < |lines| && KeepLine(env.validUrl, lines[k])
    requires forall k' :: 0 <= k' < |lines| && k' != k ==> !KeepLine(env.validUrl, lines[k'])
    ensures Serve(env, true, lines, rand).fetched == [Trim(lines[k])]
  {
    SingleCandidate(env.validUrl, lines, k);
  }

  /** The placeholder really is a PNG: it starts with the PNG signature, its
      first chunk is a header declaring a 1x1 image, and it ends with the
      end-of-image chunk. */
  lemma PlaceholderIsPng()
    ensures |PlaceholderPng| == 68
    ensures PlaceholderPng[..8] == PngSignature
    ensures PlaceholderPng[12..16] == [0x49, 0x48, 0x44, 0x52]
    ensures PlaceholderPng[16..24] == [0, 0, 0, 1, 0, 0, 0, 1]
    ensures PlaceholderPng[|PlaceholderPng| - 12..] == PlaceholderEnd
  {
    var png := PlaceholderPng;
    var header := PlaceholderHeader;
    assert png == PngSignature + (header + (PlaceholderData + PlaceholderEnd));
    assert png[12..16] == header[4..8];
    assert png[16..24] == header[8..16];
  }
}
