/** The name an uploaded file is stored under and the URL the upload
    request answers with. */
module Uploads {
  import opened Decimal
  import opened Wrappers

  /** The public path prefix of stored uploads. */
  const UrlPrefix: string := "/uploads/"

  /** The stored file name: the upload time in decimal, an underscore, then
      the client's original file name unchanged. */
  function FileName(now: nat, original: string): (name: string)
    ensures |name| == |Show(now)| + 1 + |original|
    ensures name[|name| - |original|..] == original
    ensures name[|Show(now)|] == '_'
    ensures AllDigits(name[..|Show(now)|])
  {
    Show(now) + "_" + original
  }

  /** The URL the client is told to fetch the stored file from. */
  function Url(name: string): (url: string)
    ensures |url| == |UrlPrefix| + |name|
    ensures url[..|UrlPrefix|] == UrlPrefix
    ensures url[|UrlPrefix|..] == name
  {
    UrlPrefix + name
  }

  /** Position of the first occurrence of `c` in `s`. */
  function IndexOf(s: string, c: char): (r: Option<nat>)
    ensures r.Some? ==> r.value < |s| && s[r.value] == c
    ensures r.Some? ==> forall i :: 0 <= i < r.value ==> s[i] != c
    ensures r.None? ==> forall i :: 0 <= i < |s| ==> s[i] != c
  {
    if |s| == 0 then None
    else if s[0] == c then Some(0)
    else match IndexOf(s[1..], c)
      case None => None
      case Some(k) => Some(k + 1)
  }

  /** Splitting a stored file name back into its timestamp and original
      name, at the first underscore. */
  function SplitFileName(name: string): (r: Option<(nat, string)>)
  {
    match IndexOf(name, '_')
    case None => None
    case Some(k) =>
      var stamp := name[..k];
      if |stamp| > 0 && AllDigits(stamp) then Some((Parse(stamp), name[k + 1..])) else None
  }

  /** The part of an upload URL after the prefix, if it has the prefix. */
  function FileOfUrl(url: string): (r: Option<string>)
  {
    if |url| >= |UrlPrefix| && url[..|UrlPrefix|] == UrlPrefix then Some(url[|UrlPrefix|..]) else None
  }

  /** The stored name determines the upload time and the original name:
      digits hold no underscore, so the first one is the separator. */
  lemma FileNameRoundTrip(now: nat, original: string)
    ensures SplitFileName(FileName(now, original)) == Some((now, original))
  {
    var stamp := Show(now);
    var name := FileName(now, original);
    assert name[..|stamp|] == stamp;
    assert name[|stamp| + 1..] == original;
    assert forall i :: 0 <= i < |stamp| ==> name[i] != '_' by {
      forall i | 0 <= i < |stamp| ensures name[i] != '_' {
        assert name[i] == stamp[i];
        assert IsDigit(stamp[i]);
      }
    }
    assert IndexOf(name, '_') == Some(|stamp|);
    ParseShow(now);
  }

  /** The URL returned for an upload leads back to the stored name. */
  lemma UrlRoundTrip(name: string)
    ensures FileOfUrl(Url(name)) == Some(name)
  {
  }
}
