/** The generator adapter, `generateApp` and `fallbackGenerate`.

    The prompt's text, the language-model call and the parsing of its reply
    are not modelled, but building the prompt is, since it can throw: a
    configured client contributes only the reply it produced,
    either a parsed object whose `files` is or is not an array of files, or a
    failure (network, quota, a reply that does not parse). The base64
    encoder `base64(s)` is a parameter `encode`; the properties that depend
    on it assume only `IsBase64TextEncoder(encode)`. */
module Generator {
  import opened Wrappers
  import opened JsValues
  import opened Encoding

  /** A file of the generated app; `content` is meant to be base64 text. */
  datatype GeneratedFile = GeneratedFile(path: string, content: string)

  /** The arguments of `generateApp` that affect its result: the brief (only
      the prompt uses it), the request's `attachments` value as given and the
      seed, which the handler sets to the task. */
  datatype Request = Request(brief: Value, attachments: Value, seed: string)

  /** What the language-model call yielded: `files` is `None` when the parsed
      object's `files` is not an array. */
  datatype Reply =
    | Parsed(files: Option<seq<GeneratedFile>>)
    | CallFailed

  /** The configured client: none without an API key, else the reply its
      call produces. */
  datatype Backend =
    | NoApiKey
    | OpenAi(reply: Reply)

  // ---------------------------------------------------------------------
  // The base64 test of the normalisation pass: /^[A-Za-z0-9+/=]+\s*$/

  /** `\s` in a JavaScript regular expression. */
  predicate IsRegexSpace(c: char) {
    var n := c as int;
    (9 <= n <= 13) || n == 0x20 || n == 0xA0 || n == 0x1680 || (0x2000 <= n <= 0x200A)
    || n == 0x2028 || n == 0x2029 || n == 0x202F || n == 0x205F || n == 0x3000 || n == 0xFEFF
  }

  /** Length of the longest prefix of base64 characters. */
  function Base64RunLength(s: string): (k: nat)
    ensures k <= |s|
    ensures forall i :: 0 <= i < k ==> IsBase64Char(s[i])
    ensures k < |s| ==> !IsBase64Char(s[k])
  {
    if s == [] || !IsBase64Char(s[0]) then 0 else 1 + Base64RunLength(s[1..])
  }

  /** The regular expression test, decided greedily: a non-empty run of base64
      characters and then only whitespace. */
  predicate LooksLikeBase64(s: string) {
    var k := Base64RunLength(s);
    k > 0 && forall i :: k <= i < |s| ==> IsRegexSpace(s[i])
  }

  /** What the regular expression means: the text splits into a non-empty run
      of base64 characters followed by a run of whitespace. */
  ghost predicate MatchesBase64Pattern(s: string) {
    exists k :: SplitsAt(s, k)
  }

  ghost predicate SplitsAt(s: string, k: int) {
    1 <= k <= |s|
    && (forall i :: 0 <= i < k ==> IsBase64Char(s[i]))
    && (forall i :: k <= i < |s| ==> IsRegexSpace(s[i]))
  }

  /** The greedy test agrees with the pattern's meaning on every string. */
  lemma LooksLikeBase64IffMatches(s: string)
    ensures LooksLikeBase64(s) <==> MatchesBase64Pattern(s)
  {
    var k := Base64RunLength(s);
    if MatchesBase64Pattern(s) {
      var k' :| SplitsAt(s, k');
      assert k' <= k;
    }
    if LooksLikeBase64(s) {
      assert SplitsAt(s, k);
    }
  }

  /** Text made only of base64 characters, and not empty, passes the test. */
  lemma AllBase64CharsLooksLikeBase64(s: string)
    requires s != ""
    requires forall i :: 0 <= i < |s| ==> IsBase64Char(s[i])
    ensures LooksLikeBase64(s)
  {
    var k := Base64RunLength(s);
    assert k == |s|;
  }

  // ---------------------------------------------------------------------
  // Normalisation of a successful reply

  /** A content that fails the test is replaced by the base64 of its UTF-8
      bytes; one that passes is kept. */
  function NormalisedContent(c: string, encode: string -> string): string {
    if LooksLikeBase64(c) then c else encode(c)
  }

  /** After normalisation a content is either empty or passes the test, so
      normalising again changes nothing. */
  lemma NormalisedContentIdempotent(c: string, encode: string -> string)
    requires IsBase64TextEncoder(encode)
    ensures NormalisedContent(c, encode) == "" || LooksLikeBase64(NormalisedContent(c, encode))
    ensures NormalisedContent(NormalisedContent(c, encode), encode) == NormalisedContent(c, encode)
  {
    if !LooksLikeBase64(c) {
      var e := encode(c);
      if c == "" {
        assert e == "";
        assert !LooksLikeBase64("");
      } else {
        AllBase64CharsLooksLikeBase64(e);
      }
    }
  }

  /** The test looks only at the characters, so plain text made of letters
      and digits alone, such as `Hello`, passes it and is kept as it is
      (and later decoded as if it were base64). */
  lemma PlainWordIsKept(encode: string -> string)
    ensures NormalisedContent("Hello", encode) == "Hello"
  {
    AllBase64CharsLooksLikeBase64("Hello");
  }

  function NormaliseFile(f: GeneratedFile, encode: string -> string): GeneratedFile {
    f.(content := NormalisedContent(f.content, encode))
  }

  /** The normalisation pass over the reply's files, as a function of them. */
  function NormaliseFiles(files: seq<GeneratedFile>, encode: string -> string): (r: seq<GeneratedFile>)
    ensures |r| == |files|
  {
    if files == [] then [] else [NormaliseFile(files[0], encode)] + NormaliseFiles(files[1..], encode)
  }

  /** The pass keeps the number and order of the files and their paths, and
      rewrites each content on its own. */
  lemma {:induction false} NormaliseFilesAt(files: seq<GeneratedFile>, encode: string -> string, i: nat)
    requires i < |files|
    ensures NormaliseFiles(files, encode)[i] == NormaliseFile(files[i], encode)
    ensures NormaliseFiles(files, encode)[i].path == files[i].path
    ensures NormaliseFiles(files, encode)[i].content == NormalisedContent(files[i].content, encode)
  {
    if i > 0 {
      NormaliseFilesAt(files[1..], encode, i - 1);
    }
  }

  /** Normalising twice is normalising once. */
  lemma NormaliseFilesIdempotent(files: seq<GeneratedFile>, encode: string -> string)
    requires IsBase64TextEncoder(encode)
    ensures NormaliseFiles(NormaliseFiles(files, encode), encode) == NormaliseFiles(files, encode)
  {
    var once := NormaliseFiles(files, encode);
    var twice := NormaliseFiles(once, encode);
    forall i | 0 <= i < |files|
      ensures twice[i] == once[i]
    {
      NormaliseFilesAt(files, encode, i);
      NormaliseFilesAt(once, encode, i);
      NormalisedContentIdempotent(files[i].content, encode);
    }
  }

  // ---------------------------------------------------------------------
  // The fallback app

  /** `attachments[0]`. `fallbackGenerate` is only reached once the prompt
      has mapped over `attachments || []`, so here the value is an array or
      falsy. */
  function FirstAttachment(attachments: Value): Value {
    if attachments.Arr? && |attachments.items| > 0 then attachments.items[0] else Undefined
  }

  /** `attachments && attachments[0] ? attachments[0].name : 'sample.png'`:
      the value the `<img>` source is made from. */
  function ImageName(attachments: Value): (v: Value)
    ensures !Truthy(FirstAttachment(attachments)) ==> v == Str("sample.png")
  {
    var first := FirstAttachment(attachments);
    if !Truthy(first) then Str("sample.png")
    else if first.Obj? then Prop(first.props, "name")
    else Undefined
  }

  /** The `<img>` source as the template literal inserts it. */
  function ImageSource(attachments: Value): (src: string)
    ensures !Truthy(FirstAttachment(attachments)) ==> src == "sample.png"
  {
    Display(ImageName(attachments))
  }

  /** With an array of attachments the image is the first one's name. */
  lemma ImageSourceIsFirstName(items: seq<Value>, name: string)
    requires |items| > 0 && items[0].Obj? && Prop(items[0].props, "name") == Str(name)
    ensures Displayable(ImageName(Arr(items)))
    ensures ImageSource(Arr(items)) == name
  {
  }

  const OcrScript: string :=
    "<div id=\"ocr\">Solving...</div>\n"
    + "<script src=\"https://cdn.jsdelivr.net/npm/tesseract.js@4/dist/tesseract.min.js\"></script>\n"
    + "<script>\n"
    + "(async()=> {\n"
    + "  const img = document.getElementById('img');\n"
    + "  img.onload = async () => {\n"
    + "    try {\n"
    + "      const { data: { text } } = await Tesseract.recognize(img.src);\n"
    + "      document.getElementById('ocr').textContent = text.trim() || '[no text]';\n"
    + "    } catch(e) {\n"
    + "      document.getElementById('ocr').textContent = 'OCR error';\n"
    + "    }\n"
    + "  };\n"
    + "})();\n"
    + "</script>\n"
    + "</body></html>"

  const PageHead: string := "<!doctype html>\n<html><head><meta charset=\"utf-8\">"
  const PageMid: string := "</head><body>\n"
  const ImgOpen: string := "\n<img id=\"img\" "
  const ImgClose: string := " style=\"max-width:90%\"/>\n"

  function TitleTag(seed: string): string { "<title>" + seed + "</title>" }
  function HeadingTag(seed: string): string { "<h1>" + seed + "</h1>" }
  function SrcAttribute(image: string): string { "src=\"" + image + "\"" }

  /** The fallback page: the seed in the title and the heading, the image, and
      a script that runs OCR on it in the browser. */
  function FallbackIndexHtml(seed: string, image: string): string {
    PageTop(seed, image) + OcrScript
  }

  /** The page up to the OCR script. */
  function PageTop(seed: string, image: string): string {
    PageHead + TitleTag(seed) + PageMid + HeadingTag(seed) + (ImgOpen + SrcAttribute(image) + ImgClose)
  }

  function FallbackReadme(seed: string): string {
    "# " + seed + "\n\nAuto-generated fallback app\n"
  }

  /** `t` occurs in `s`. */
  ghost predicate Contains(s: string, t: string) {
    exists i :: OccursAt(s, t, i)
  }

  ghost predicate OccursAt(s: string, t: string, i: int) {
    0 <= i <= |s| - |t| && s[i..i + |t|] == t
  }

  lemma OccursAtEnd(x: string, t: string)
    ensures OccursAt(x + t, t, |x|)
  {
    assert (x + t)[|x|..|x| + |t|] == t;
  }

  lemma OccursBefore(x: string, y: string, t: string, i: int)
    requires OccursAt(x, t, i)
    ensures OccursAt(x + y, t, i)
  {
    assert (x + y)[i..i + |t|] == x[i..i + |t|];
  }

  lemma OccursAfter(x: string, y: string, t: string, i: int)
    requires OccursAt(y, t, i)
    ensures OccursAt(x + y, t, |x| + i)
  {
    assert (x + y)[|x| + i..|x| + i + |t|] == y[i..i + |t|];
  }

  /** The page names the seed in `<title>` and `<h1>` and shows the image. */
  lemma FallbackPageShowsSeedAndImage(seed: string, image: string)
    ensures Contains(FallbackIndexHtml(seed, image), TitleTag(seed))
    ensures Contains(FallbackIndexHtml(seed, image), HeadingTag(seed))
    ensures Contains(FallbackIndexHtml(seed, image), SrcAttribute(image))
  {
    PageTopShowsSeedAndImage(seed, image, OcrScript);
  }

  /** The same for the top of the page followed by any text. */
  lemma PageTopShowsSeedAndImage(seed: string, image: string, tail: string)
    ensures Contains(PageTop(seed, image) + tail, TitleTag(seed))
    ensures Contains(PageTop(seed, image) + tail, HeadingTag(seed))
    ensures Contains(PageTop(seed, image) + tail, SrcAttribute(image))
  {
    var title, heading, src := TitleTag(seed), HeadingTag(seed), SrcAttribute(image);
    var img := ImgOpen + src + ImgClose;
    var p1 := PageHead + title;
    var p2 := p1 + PageMid;
    var p3 := p2 + heading;
    var p4 := p3 + img;
    assert p4 == PageTop(seed, image);
    OccursAtEnd(PageHead, title);
    OccursBefore(p1, PageMid, title, |PageHead|);
    OccursBefore(p2, heading, title, |PageHead|);
    OccursBefore(p3, img, title, |PageHead|);
    OccursBefore(p4, tail, title, |PageHead|);
    OccursAtEnd(p2, heading);
    OccursBefore(p3, img, heading, |p2|);
    OccursBefore(p4, tail, heading, |p2|);
    OccursAtEnd(ImgOpen, src);
    OccursBefore(ImgOpen + src, ImgClose, src, |ImgOpen|);
    OccursAfter(p3, img, src, |ImgOpen|);
    OccursBefore(p4, tail, src, |p3| + |ImgOpen|);
  }

  lemma FallbackPageNotEmpty(seed: string, image: string)
    ensures FallbackIndexHtml(seed, image) != ""
  {
    assert |FallbackIndexHtml(seed, image)| >= |PageHead|;
  }

  /** The files `fallbackGenerate` returns: `index.html` then `README.md`,
      each the base64 of its UTF-8 text. */
  function FallbackFiles(req: Request, encode: string -> string): (r: seq<GeneratedFile>)
    ensures |r| == 2 && r[0].path == "index.html" && r[1].path == "README.md"
  {
    [ GeneratedFile("index.html", encode(FallbackIndexHtml(req.seed, ImageSource(req.attachments)))),
      GeneratedFile("README.md", encode(FallbackReadme(req.seed))) ]
  }

  /** `fallbackGenerate`: the two files, or `None` when converting the image
      name throws. */
  function FallbackGenerate(req: Request, encode: string -> string): (r: Option<seq<GeneratedFile>>)
    ensures r.None? <==> !Displayable(ImageName(req.attachments))
    ensures r.Some? ==> r.value == FallbackFiles(req, encode)
  {
    if Displayable(ImageName(req.attachments)) then Some(FallbackFiles(req, encode)) else None
  }

  /** The fallback ignores the brief and reads nothing of the attachments but
      the image source: requests that agree on the seed and the image give
      the same app. */
  lemma FallbackDependsOnSeedAndImage(r1: Request, r2: Request, encode: string -> string)
    requires r1.seed == r2.seed && ImageSource(r1.attachments) == ImageSource(r2.attachments)
    ensures FallbackFiles(r1, encode) == FallbackFiles(r2, encode)
  {
  }

  /** Both fallback files pass the normalisation test, so normalisation
      would leave them as they are. */
  lemma FallbackIsNormalised(req: Request, encode: string -> string)
    requires IsBase64TextEncoder(encode)
    ensures LooksLikeBase64(FallbackFiles(req, encode)[0].content)
    ensures LooksLikeBase64(FallbackFiles(req, encode)[1].content)
    ensures NormaliseFiles(FallbackFiles(req, encode), encode) == FallbackFiles(req, encode)
  {
    var r := FallbackFiles(req, encode);
    FallbackPageNotEmpty(req.seed, ImageSource(req.attachments));
    AllBase64CharsLooksLikeBase64(r[0].content);
    AllBase64CharsLooksLikeBase64(r[1].content);
    NormaliseFilesAt(r, encode, 0);
    NormaliseFilesAt(r, encode, 1);
  }

  // ---------------------------------------------------------------------
  // generateApp

  /** `a == null || a == undefined`: reading `a.name` on it throws. */
  predicate Nullish(v: Value) {
    v.Undefined? || v.Null?
  }

  /** The prompt is built first, before the client is consulted and outside
      the `try`: `${brief}` converts the brief, and
      `(attachments || []).map(a => a.name)` needs an array whose items are
      neither `null` nor `undefined`. Otherwise `generateApp` throws. */
  predicate PromptBuilds(req: Request) {
    Displayable(req.brief)
    && (!Truthy(req.attachments)
        || (req.attachments.Arr? && forall i :: 0 <= i < |req.attachments.items| ==> !Nullish(req.attachments.items[i])))
  }

  /** The client's reply, when it carries an array of files. */
  predicate ReplyHasFiles(backend: Backend) {
    backend.OpenAi? && backend.reply.Parsed? && backend.reply.files.Some?
  }

  /** What `generateApp` resolves to, `None` when it throws: a prompt that
      cannot be built throws; then the reply's files, normalised, when the
      client returned an array of them; otherwise the fallback. */
  function Generated(req: Request, backend: Backend, encode: string -> string): (r: Option<seq<GeneratedFile>>)
  {
    if !PromptBuilds(req) then None
    else if ReplyHasFiles(backend) then Some(NormaliseFiles(backend.reply.files.value, encode))
    else FallbackGenerate(req, encode)
  }

  /** Attachments that are truthy but not an array make `generateApp` throw,
      whatever the client would have answered. */
  lemma NonArrayAttachmentsThrow(req: Request, backend: Backend, encode: string -> string)
    requires Truthy(req.attachments) && !req.attachments.Arr?
    ensures Generated(req, backend, encode).None?
  {
  }

  /** `generateApp` throws exactly when the prompt cannot be built, or when
      it falls back and the image name does not convert. */
  lemma GenerateAppThrowsIff(req: Request, backend: Backend, encode: string -> string)
    ensures Generated(req, backend, encode).None? <==>
      !PromptBuilds(req) || (!ReplyHasFiles(backend) && !Displayable(ImageName(req.attachments)))
  {
  }

  /** A convertible brief and an array of attachments that are objects with
      a string `name` (or no attachments at all) always yield files. */
  lemma NamedAttachmentsGenerate(req: Request, backend: Backend, encode: string -> string)
    requires Displayable(req.brief)
    requires !Truthy(req.attachments) || req.attachments.Arr?
    requires req.attachments.Arr? ==> forall i :: 0 <= i < |req.attachments.items| ==>
      req.attachments.items[i].Obj? && Prop(req.attachments.items[i].props, "name").Str?
    ensures Generated(req, backend, encode).Some?
  {
  }

  /** Whatever the backend does, the files `generateApp` returns are already
      normalised. */
  lemma GeneratedIsNormalised(req: Request, backend: Backend, encode: string -> string)
    requires IsBase64TextEncoder(encode)
    ensures var r := Generated(req, backend, encode);
      r.Some? ==> NormaliseFiles(r.value, encode) == r.value
  {
    if ReplyHasFiles(backend) {
      NormaliseFilesIdempotent(backend.reply.files.value, encode);
    } else {
      FallbackIsNormalised(req, encode);
    }
  }

  /** The normalisation loop of `generateApp`: each content that does not
      already look like base64 is replaced, in place, by base64 of its UTF-8
      bytes; paths, order and count are kept. */
  method NormaliseReply(reply: seq<GeneratedFile>, encode: string -> string) returns (files: seq<GeneratedFile>)
    ensures files == NormaliseFiles(reply, encode)
  {
    ghost var target := NormaliseFiles(reply, encode);
    var a := new GeneratedFile[|reply|](j requires 0 <= j < |reply| => reply[j]);
    var i := 0;
    while i < a.Length
      invariant 0 <= i <= a.Length
      invariant forall j :: 0 <= j < i ==> a[j] == target[j]
      invariant forall j :: i <= j < a.Length ==> a[j] == reply[j]
    {
      NormaliseFilesAt(reply, encode, i);
      var f := a[i];
      if !LooksLikeBase64(f.content) {
        a[i] := f.(content := encode(f.content));
      }
      assert a[i] == target[i];
      i := i + 1;
    }
    files := a[..];
    assert files == target;
  }

  /** `generateApp`: the prompt, then the normalised reply when the client
      returned an array of files, otherwise the fallback; `None` when it
      throws. */
  method GenerateApp(req: Request, backend: Backend, encode: string -> string) returns (files: Option<seq<GeneratedFile>>)
    ensures files == Generated(req, backend, encode)
  {
    if !PromptBuilds(req) {
      return None;
    }
    if ReplyHasFiles(backend) {
      var normalised := NormaliseReply(backend.reply.files.value, encode);
      files := Some(normalised);
    } else {
      files := FallbackGenerate(req, encode);
    }
  }
}
