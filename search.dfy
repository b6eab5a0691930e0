/** The input resolver of public/search.js: user input becomes an absolute
    URL or a search-engine query. The WHATWG URL parser is not modelled; it
    is the `parse` argument, which yields the parsed URL's serialisation
    (`toString()`) and its `hostname`, or `None` where `new URL` throws. */
module Resolver {
  import opened Wrappers
  import JsString
  import UriEncoding

  datatype Url = Url(href: string, hostname: string)

  type Parser = string -> Option<Url>

  const Placeholder := "%s"

  /** The second rule applies: `"http://" + input` parses to a host with a
      dot. */
  predicate LooksLikeDomain(input: string, parse: Parser)
    ensures LooksLikeDomain(input, parse) <==>
      parse("http://" + input).Some? && '.' in parse("http://" + input).value.hostname
  {
    var prefixed := parse("http://" + input);
    prefixed.Some? &&
      (JsString.ContainsChar(prefixed.value.hostname, '.');
       JsString.Contains(prefixed.value.hostname, "."))
  }

  /** Where user input leads: an absolute URL as given, a dotted host name
      under `http://`, or otherwise the template with its first `%s`, if
      any, replaced by text that decodes back to the input and holds only
      unreserved characters and `%XX` triples. */
  function Search(input: string, template: string, parse: Parser): (r: string)
    ensures parse(input).Some? ==> r == parse(input).value.href
    ensures parse(input).None? && LooksLikeDomain(input, parse) ==>
      r == parse("http://" + input).value.href
    ensures parse(input).None? && !LooksLikeDomain(input, parse) ==>
      var e := UriEncoding.EncodeUriComponent(input);
      && UriEncoding.DecodeUriComponent(e) == Some(input) && UriEncoding.WellEncoded(e)
      && (JsString.IndexOf(template, Placeholder).None? ==> r == template)
      && (JsString.IndexOf(template, Placeholder).Some? ==>
            var i := JsString.IndexOf(template, Placeholder).value;
            r == template[..i] + e + template[i + |Placeholder|..])
  {
    match parse(input)
    case Some(url) => url.href
    case None =>
      UriEncoding.DecodeEncode(input);
      UriEncoding.EncodeWellEncoded(input);
      EncodedInputIsLiteral(input);
      var prefixed := parse("http://" + input);
      if prefixed.Some? && JsString.Contains(prefixed.value.hostname, ".") then prefixed.value.href
      else JsString.ReplaceFirst(template, Placeholder, UriEncoding.EncodeUriComponent(input))
  }

  /** The template matters only when neither URL rule applies. */
  lemma TemplateOnlyForSearches(input: string, t1: string, t2: string, parse: Parser)
    requires parse(input).Some? || LooksLikeDomain(input, parse)
    ensures Search(input, t1, parse) == Search(input, t2, parse)
  {
  }

  /** A prefixed parse whose host has no dot (`"localhost"`) is a search. */
  lemma UndottedHostIsSearched(input: string, template: string, parse: Parser)
    requires parse(input).None?
    requires parse("http://" + input) == Some(Url("http://localhost/", "localhost"))
    ensures var e := UriEncoding.EncodeUriComponent(input);
      '$' !in e && Search(input, template, parse) == JsString.ReplaceFirst(template, Placeholder, e)
  {
    EncodedInputIsLiteral(input);
    JsString.ContainsChar("localhost", '.');
  }

  /** `"example.com"`, which parses only after `http://` is prepended, gives
      `"http://example.com/"`. */
  lemma DomainGetsHttp(input: string, template: string, parse: Parser)
    requires input == "example.com"
    requires parse(input).None?
    requires parse("http://" + input) == Some(Url("http://example.com/", "example.com"))
    ensures Search(input, template, parse) == "http://example.com/"
  {
    JsString.ContainsChar("example.com", '.');
    assert "example.com"[7] == '.';
  }

  /** In the search rule the inserted text is exactly the encoded input: it
      begins where the template's first `%s` was, decodes back to the input,
      and holds only unreserved characters and `%XX` triples. */
  lemma SearchInsertsEncodedInput(input: string, template: string, parse: Parser, i: nat)
    requires parse(input).None? && !LooksLikeDomain(input, parse)
    requires JsString.OccursAt(template, Placeholder, i)
    requires forall j :: 0 <= j < i ==> !JsString.OccursAt(template, Placeholder, j)
    ensures var r := Search(input, template, parse);
      var e := UriEncoding.EncodeUriComponent(input);
      && r == template[..i] + e + template[i + 2..]
      && UriEncoding.DecodeUriComponent(r[i..i + |e|]) == Some(input)
      && UriEncoding.WellEncoded(r[i..i + |e|])
  {
    var e := UriEncoding.EncodeUriComponent(input);
    EncodedInputIsLiteral(input);
    JsString.ReplaceFirstAt(template, Placeholder, e, i);
    var r := template[..i] + e + template[i + 2..];
    assert r[i..i + |e|] == e;
    UriEncoding.DecodeEncode(input);
    UriEncoding.EncodeWellEncoded(input);
  }

  /** The encoded input that replaces the first `%s` holds no `$`, so
      `replace` inserts it literally, and no `%s` of its own, so every
      placeholder left in the result was already in the template. */
  lemma EncodedInputIsLiteral(input: string)
    ensures '$' !in UriEncoding.EncodeUriComponent(input)
    ensures !JsString.Contains(UriEncoding.EncodeUriComponent(input), Placeholder)
  {
    var e := UriEncoding.EncodeUriComponent(input);
    UriEncoding.EncodeWellEncoded(input);
    UriEncoding.WellEncodedHasNoDollarOrPlaceholder(e);
    JsString.NoPair(e, '%', 's');
  }

  /** A later, non-overlapping `%s` of the template survives in the result. */
  lemma LaterPlaceholdersRemain(input: string, template: string, parse: Parser, i: nat, j: nat)
    requires parse(input).None? && !LooksLikeDomain(input, parse)
    requires JsString.OccursAt(template, Placeholder, i)
    requires forall k :: 0 <= k < i ==> !JsString.OccursAt(template, Placeholder, k)
    requires i + 2 <= j && JsString.OccursAt(template, Placeholder, j)
    ensures JsString.OccursAt(Search(input, template, parse), Placeholder,
                              j - 2 + |UriEncoding.EncodeUriComponent(input)|)
  {
    var e := UriEncoding.EncodeUriComponent(input);
    SearchFallback(input, template, parse);
    JsString.ReplaceFirstKeepsLater(template, Placeholder, e, i, j);
  }

  /** When neither URL rule applies, the result is `replace` of the first
      `%s` by the encoded input, which holds no `$`. */
  lemma SearchFallback(input: string, template: string, parse: Parser)
    requires parse(input).None? && !LooksLikeDomain(input, parse)
    ensures var e := UriEncoding.EncodeUriComponent(input);
      '$' !in e && Search(input, template, parse) == JsString.ReplaceFirst(template, Placeholder, e)
  {
    EncodedInputIsLiteral(input);
  }

  /** A template without `%s` is returned unchanged by the search rule. */
  lemma NoPlaceholderKeepsTemplate(input: string, template: string, parse: Parser)
    requires parse(input).None? && !LooksLikeDomain(input, parse)
    requires !JsString.Contains(template, Placeholder)
    ensures Search(input, template, parse) == template
  {
  }

  /** Unreserved text around one space: only the space is escaped. */
  lemma EncodeAroundSpace(w: string, t: string)
    requires forall k :: 0 <= k < |w| ==> UriEncoding.IsUnreserved(w[k])
    requires forall k :: 0 <= k < |t| ==> UriEncoding.IsUnreserved(t[k])
    ensures UriEncoding.EncodeUriComponent(w + [' '] + t) == w + "%20" + t
  {
    UriEncoding.EncodeAppend(w + [' '], t);
    UriEncoding.EncodeAppend(w, [' ']);
    UriEncoding.EncodeUnreserved(w);
    UriEncoding.EncodeUnreserved(t);
    EncodeSpace([' ']);
  }

  lemma EncodeSpace(sp: string)
    requires sp == [' ']
    ensures UriEncoding.EncodeUriComponent(sp) == "%20"
  {
    assert UriEncoding.Utf8(' ') == [32];
    assert UriEncoding.EncodeChar(' ') == "%20";
    assert sp[1..] == [];
  }

  lemma EncodeWeatherToday(input: string)
    requires input == "weather today"
    ensures UriEncoding.EncodeUriComponent(input) == "weather%20today"
  {
    var w, t := input[..7], input[8..];
    assert input == w + [' '] + t;
    EncodeAroundSpace(w, t);
  }

  lemma FirstPlaceholderOfDuckDuckGo(template: string)
    requires template == "https://duckduckgo.com/?q=%s"
    ensures JsString.OccursAt(template, Placeholder, 26)
    ensures forall j :: 0 <= j < 26 ==> !JsString.OccursAt(template, Placeholder, j)
  {
    assert template[26..28] == Placeholder;
    assert '%' !in template[..26];
    JsString.FirstOccurrence(template, Placeholder, 26);
  }

  lemma SpliceWeatherToday(template: string, e: string)
    requires template == "https://duckduckgo.com/?q=%s" && e == "weather%20today"
    ensures template[..26] + e + template[28..] == "https://duckduckgo.com/?q=weather%20today"
  {
  }

  /** `"weather today"` with the DuckDuckGo template, when neither URL rule
      applies, gives `https://duckduckgo.com/?q=weather%20today`. */
  lemma WeatherToday(input: string, template: string, parse: Parser)
    requires input == "weather today" && template == "https://duckduckgo.com/?q=%s"
    requires parse(input).None? && parse("http://" + input).None?
    ensures Search(input, template, parse) == "https://duckduckgo.com/?q=weather%20today"
  {
    var e := UriEncoding.EncodeUriComponent(input);
    EncodeWeatherToday(input);
    EncodedInputIsLiteral(input);
    FirstPlaceholderOfDuckDuckGo(template);
    JsString.ReplaceFirstAt(template, Placeholder, e, 26);
    assert Search(input, template, parse) == template[..26] + e + template[28..];
    SpliceWeatherToday(template, e);
  }

  /** Resolving a resolved URL again changes nothing, given that the parser
      reproduces its own serialisation. */
  lemma ResolveIdempotentOnUrls(input: string, template: string, parse: Parser)
    requires parse(input).Some? || LooksLikeDomain(input, parse)
    requires var r := Search(input, template, parse); parse(r).Some? && parse(r).value.href == r
    ensures Search(Search(input, template, parse), template, parse) == Search(input, template, parse)
  {
  }
}
