/** Attachments of a submission: reading `{name, url}` out of the request and
    cutting the data-URL prefix off the payload text. */
module Attachments {
  import opened Wrappers
  import opened JsValues

  /** An attachment whose `name` and `url` are both strings. */
  datatype Attachment = Attachment(name: string, url: string)

  /** `a.name` and `a.url` as the handler uses them: joining a non-string name
      into a path, or calling `indexOf` on a missing url, throws. */
  function ParseAttachment(v: Value): (r: Option<Attachment>)
    ensures r.Some? <==> v.Obj? && Prop(v.props, "name").Str? && Prop(v.props, "url").Str?
    ensures r.Some? ==> r.value.name == Prop(v.props, "name").s && r.value.url == Prop(v.props, "url").s
  {
    match v
    case Obj(props) =>
      var name := Prop(props, "name");
      var url := Prop(props, "url");
      if name.Str? && url.Str? then Some(Attachment(name.s, url.s)) else None
    case _ => None
  }

  /** The attachments the handler gets through before the first one it cannot
      read: the loop writes these and then throws at the next. */
  function ParsedPrefix(items: seq<Value>): (atts: seq<Attachment>)
    ensures |atts| <= |items|
    ensures forall i :: 0 <= i < |atts| ==> ParseAttachment(items[i]) == Some(atts[i])
    ensures |atts| < |items| ==> ParseAttachment(items[|atts|]).None?
  {
    if items == [] then []
    else match ParseAttachment(items[0])
      case None => []
      case Some(a) => [a] + ParsedPrefix(items[1..])
  }

  /** One step of the save loop: the next item either reads as the next
      attachment of the prefix or is the one the loop stops at. */
  lemma ParsedPrefixStep(items: seq<Value>, i: nat)
    requires i < |items| && i <= |ParsedPrefix(items)|
    ensures ParseAttachment(items[i]).Some? ==>
      i < |ParsedPrefix(items)| && ParseAttachment(items[i]).value == ParsedPrefix(items)[i]
    ensures ParseAttachment(items[i]).None? ==> i == |ParsedPrefix(items)|
  {
  }

  /** `s.indexOf(c)`, with `None` for -1. */
  function IndexOf(s: string, c: char): (r: Option<nat>)
    ensures r.None? <==> c !in s
    ensures r.Some? ==> r.value < |s| && s[r.value] == c && c !in s[..r.value]
  {
    if s == [] then None
    else if s[0] == c then Some(0)
    else match IndexOf(s[1..], c)
      case None => None
      case Some(i) =>
        assert s[..i + 1] == [s[0]] + s[1..][..i];
        Some(i + 1)
  }

  /** The base64 text of an attachment url: what follows the first comma, or
      the whole url when it has none. */
  function StripDataPrefix(url: string): (data: string)
    ensures |data| <= |url| && data == url[|url| - |data|..]
    ensures ',' !in url ==> data == url
  {
    match IndexOf(url, ',')
    case None => url
    case Some(i) => url[i + 1..]
  }

  /** A prefix without commas, such as `data:image/png;base64`, is cut off
      together with its comma, and the payload is kept whole even when it
      contains commas itself. */
  lemma StripDataPrefixRoundTrip(prefix: string, data: string)
    requires ',' !in prefix
    ensures StripDataPrefix(prefix + "," + data) == data
  {
    var url := prefix + "," + data;
    assert url[|prefix|] == ',';
    assert url[..|prefix|] == prefix;
    var r := IndexOf(url, ',');
    assert r.Some?;
    assert r.value == |prefix|;
    assert url[|prefix| + 1..] == data;
  }
}
