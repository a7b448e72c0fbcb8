/**
 * HTMLGetLinksParser: while the HTML is fed, every start tag is handed to
 * handle_starttag, which appends the href of an `a` tag to `links` when it
 * ends with `.` plus the filter extension (or always, without a filter).
 * The HTML tokenizer is not modelled: the start tags are given.
 */
module HtmlLinks {
  import opened Wrappers

  /** A start tag as HTMLParser reports it; an attribute written without a value has the value None. */
  datatype StartTag = StartTag(tag: string, attrs: seq<(string, Option<string>)>)

  predicate EndsWith(s: string, suffix: string) {
    |suffix| <= |s| && s[|s| - |suffix|..] == suffix
  }

  /** An href value handle_starttag keeps: without a filter any value, with one a text ending with '.' + extension. */
  predicate Accepted(v: Option<string>, filter: Option<string>) {
    filter.None? || (v.Some? && EndsWith(v.value, "." + filter.value))
  }

  /** v.endswith(...) on a valueless href raises AttributeError. */
  predicate Raises(v: Option<string>, filter: Option<string>) {
    filter.Some? && v.None?
  }

  /** The links one `a` tag's attributes contribute, up to the first one that raises. */
  datatype Scan = Scan(found: seq<Option<string>>, raised: bool)

  /** The loop over attrs, in order. */
  function ScanAttrs(attrs: seq<(string, Option<string>)>, filter: Option<string>): Scan {
    if |attrs| == 0 then Scan([], false)
    else
      var s := ScanAttrs(attrs[..|attrs| - 1], filter);
      var last := attrs[|attrs| - 1];
      if s.raised || last.0 != "href" then s
      else if Raises(last.1, filter) then Scan(s.found, true)
      else if Accepted(last.1, filter) then Scan(s.found + [last.1], false)
      else s
  }

  class LinkParser {
    var filterExtension: Option<string>
    var links: seq<Option<string>>

    constructor(filterExtension: Option<string>)
      ensures this.filterExtension == filterExtension && links == []
    {
      this.filterExtension := filterExtension;
      links := [];
    }

    /** handle_starttag: on an `a` tag the accepted hrefs are appended, until one raises. */
    method HandleStartTag(tag: string, attrs: seq<(string, Option<string>)>) returns (raised: bool)
      modifies this
      ensures filterExtension == old(filterExtension)
      ensures tag != "a" ==> links == old(links) && !raised
      ensures tag == "a" ==> var s := ScanAttrs(attrs, filterExtension); links == old(links) + s.found && raised == s.raised
    {
      raised := false;
      if tag != "a" {
        return;
      }
      for i := 0 to |attrs|
        invariant filterExtension == old(filterExtension)
        invariant |old(links)| <= |links| && links[..|old(links)|] == old(links)
        invariant ScanAttrs(attrs[..i], filterExtension) == Scan(links[|old(links)|..], raised)
      {
        assert attrs[..i + 1][..i] == attrs[..i];
        if raised {
          continue;
        }
        var (k, v) := attrs[i];
        if k == "href" {
          if filterExtension.Some? && v.None? {
            raised := true;
          } else if filterExtension.None? || EndsWith(v.value, "." + filterExtension.value) {
            links := links + [v];
          }
        }
      }
      assert attrs[..|attrs|] == attrs;
      assert links == old(links) + links[|old(links)|..];
    }

    /** feed: handle_starttag on each start tag in turn; an exception ends the parse. */
    method Feed(tags: seq<StartTag>) returns (raised: bool)
      modifies this
      ensures filterExtension == old(filterExtension)
      ensures var s := FeedScan(tags, filterExtension); links == old(links) + s.found && raised == s.raised
    {
      raised := false;
      for i := 0 to |tags|
        invariant filterExtension == old(filterExtension)
        invariant |old(links)| <= |links| && links[..|old(links)|] == old(links)
        invariant FeedScan(tags[..i], filterExtension) == Scan(links[|old(links)|..], raised)
      {
        assert tags[..i + 1][..i] == tags[..i];
        if raised {
          continue;
        }
        ghost var before := links;
        raised := HandleStartTag(tags[i].tag, tags[i].attrs);
        assert links[|old(links)|..] == before[|old(links)|..] + links[|before|..];
      }
      assert tags[..|tags|] == tags;
      assert links == old(links) + links[|old(links)|..];
    }

    /** get_links */
    function GetLinks(): (r: seq<Option<string>>)
      reads this
      ensures r == links
    {
      links
    }
  }

  /**
   * Every collected link is the value of an href attribute and passes the
   * filter; with a filter every collected link is a text.
   */
  lemma {:induction false} ScanFindsHrefs(attrs: seq<(string, Option<string>)>, filter: Option<string>)
    ensures forall v :: v in ScanAttrs(attrs, filter).found ==> ("href", v) in attrs && Accepted(v, filter)
  {
    if |attrs| > 0 {
      var init := attrs[..|attrs| - 1];
      ScanFindsHrefs(init, filter);
      assert attrs == init + [attrs[|attrs| - 1]];
      assert attrs[|attrs| - 1] == (attrs[|attrs| - 1].0, attrs[|attrs| - 1].1);
    }
  }

  /** Unless a valueless href raised, every href that passes the filter is collected. */
  lemma {:induction false} ScanFindsAll(attrs: seq<(string, Option<string>)>, filter: Option<string>)
    ensures !ScanAttrs(attrs, filter).raised ==>
      forall v :: ("href", v) in attrs && Accepted(v, filter) ==> v in ScanAttrs(attrs, filter).found
  {
    if |attrs| > 0 {
      var init := attrs[..|attrs| - 1];
      ScanFindsAll(init, filter);
      assert attrs == init + [attrs[|attrs| - 1]];
      RaisedStays(init, attrs, filter);
    }
  }

  /** Once raised, the scan stays raised. */
  lemma RaisedStays(init: seq<(string, Option<string>)>, attrs: seq<(string, Option<string>)>, filter: Option<string>)
    requires |attrs| > 0 && init == attrs[..|attrs| - 1]
    ensures ScanAttrs(init, filter).raised ==> ScanAttrs(attrs, filter).raised
  {
  }

  /** It raises exactly when a filter is set and some href has no value. */
  lemma {:induction false} ScanRaises(attrs: seq<(string, Option<string>)>, filter: Option<string>)
    ensures ScanAttrs(attrs, filter).raised <==> filter.Some? && ("href", None) in attrs
  {
    if |attrs| > 0 {
      var init := attrs[..|attrs| - 1];
      ScanRaises(init, filter);
      assert attrs == init + [attrs[|attrs| - 1]];
      assert attrs[|attrs| - 1] == (attrs[|attrs| - 1].0, attrs[|attrs| - 1].1);
    }
  }

  /** The values of the href attributes, in order. */
  function HrefValues(attrs: seq<(string, Option<string>)>): seq<Option<string>> {
    if |attrs| == 0 then []
    else HrefValues(attrs[..|attrs| - 1]) + (if attrs[|attrs| - 1].0 == "href" then [attrs[|attrs| - 1].1] else [])
  }

  /** Without a filter nothing raises and the collected links are all the href values, in order. */
  lemma {:induction false} UnfilteredKeepsEveryHref(attrs: seq<(string, Option<string>)>)
    ensures ScanAttrs(attrs, None) == Scan(HrefValues(attrs), false)
  {
    if |attrs| > 0 {
      UnfilteredKeepsEveryHref(attrs[..|attrs| - 1]);
    }
  }

  /** parser.feed: the start tags in document order, up to the first that raises. */
  function FeedScan(tags: seq<StartTag>, filter: Option<string>): Scan {
    if |tags| == 0 then Scan([], false)
    else
      var s := FeedScan(tags[..|tags| - 1], filter);
      var t := tags[|tags| - 1];
      if s.raised || t.tag != "a" then s
      else
        var a := ScanAttrs(t.attrs, filter);
        Scan(s.found + a.found, a.raised)
  }

  /** With a filter, every link fed through the parser is a text ending with '.' + extension. */
  lemma {:induction false} FedLinksHaveExtension(tags: seq<StartTag>, ext: string)
    ensures forall v :: v in FeedScan(tags, Some(ext)).found ==> v.Some? && EndsWith(v.value, "." + ext)
  {
    if |tags| > 0 {
      FedLinksHaveExtension(tags[..|tags| - 1], ext);
      ScanFindsHrefs(tags[|tags| - 1].attrs, Some(ext));
    }
  }
}
