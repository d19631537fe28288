/**
 * The pure helpers of `Aux` in fn.js (copied verbatim into background_v2.js):
 * the URL eligibility filter, the domain extractor and the ID generator.
 */
module Aux {
  import opened Wrappers

  /** Scheme prefixes of pages that are never tracked, in the order they are tried. */
  const IneligibleSchemes: seq<string> :=
    ["chrome://", "chrome-extension://", "about:", "file://", "edge://", "moz-extension://"]

  predicate StartsWith(s: string, prefix: string) {
    |prefix| <= |s| && s[..|prefix|] == prefix
  }

  /**
   * What `isEligibleUrl` decides. A missing URL (`null`, `undefined`) is
   * falsy exactly as the empty string is, so the model writes it as "".
   */
  predicate IsEligible(url: string) {
    url != "" && forall k :: 0 <= k < |IneligibleSchemes| ==> !StartsWith(url, IneligibleSchemes[k])
  }

  /** `isEligibleUrl`: the loop over the scheme list with an early return. */
  method IsEligibleUrl(url: string) returns (eligible: bool)
    ensures eligible <==> IsEligible(url)
  {
    if url == "" {
      return false;
    }
    var k := 0;
    while k < |IneligibleSchemes|
      invariant 0 <= k <= |IneligibleSchemes|
      invariant forall j :: 0 <= j < k ==> !StartsWith(url, IneligibleSchemes[j])
    {
      var scheme := IneligibleSchemes[k];
      if |scheme| <= |url| && url[..|scheme|] == scheme {
        return false;
      }
      k := k + 1;
    }
    return true;
  }

  /** A URL that starts with any listed scheme is refused. */
  lemma IneligibleSchemesRefused(url: string, k: nat)
    requires k < |IneligibleSchemes|
    ensures StartsWith(url, IneligibleSchemes[k]) ==> !IsEligible(url)
  {
  }

  /** A URL whose first character starts none of the schemes is eligible. */
  lemma {:induction false} EligibleByFirstChar(url: string)
    requires |url| > 0 && url[0] !in "cafem"
    ensures IsEligible(url)
  {
    forall k | 0 <= k < |IneligibleSchemes| ensures !StartsWith(url, IneligibleSchemes[k]) {
      var p := IneligibleSchemes[k];
      assert |p| > 0 && p[0] in "cafem" by {
        assert k == 0 || k == 1 || k == 2 || k == 3 || k == 4 || k == 5;
      }
      assert |p| <= |url| ==> url[..|p|][0] == url[0];
    }
  }

  lemma WebUrlsEligible(rest: string)
    ensures IsEligible("https://" + rest) && IsEligible("http://" + rest)
  {
    EligibleByFirstChar("https://" + rest);
    EligibleByFirstChar("http://" + rest);
  }

  // ---------------------------------------------------------------------------
  // Domain extraction

  /** `String.prototype.split` with a one-character separator. */
  function Split(s: string, sep: char): (parts: seq<string>)
    ensures |parts| >= 1
    ensures forall k :: 0 <= k < |parts| ==> sep !in parts[k]
    decreases |s|
  {
    if |s| == 0 then [""]
    else if s[0] == sep then [""] + Split(s[1..], sep)
    else
      var rest := Split(s[1..], sep);
      [[s[0]] + rest[0]] + rest[1..]
  }

  /** `Array.prototype.join` with a one-character separator. */
  function Join(parts: seq<string>, sep: char): string
  {
    if |parts| == 0 then ""
    else if |parts| == 1 then parts[0]
    else parts[0] + [sep] + Join(parts[1..], sep)
  }

  /** Splitting and joining again gives back the string. */
  lemma {:induction false} JoinSplit(s: string, sep: char)
    ensures Join(Split(s, sep), sep) == s
    decreases |s|
  {
    if |s| == 0 {
    } else if s[0] == sep {
      JoinSplit(s[1..], sep);
    } else {
      var rest := Split(s[1..], sep);
      JoinSplit(s[1..], sep);
      if |rest| > 1 {
        assert Join([[s[0]] + rest[0]] + rest[1..], sep) == [s[0]] + rest[0] + [sep] + Join(rest[1..], sep);
      }
    }
  }

  /** Joining labels that hold no separator and splitting again gives back the labels. */
  lemma {:induction false} SplitJoin(parts: seq<string>, sep: char)
    requires |parts| >= 1
    requires forall k :: 0 <= k < |parts| ==> sep !in parts[k]
    ensures Split(Join(parts, sep), sep) == parts
    decreases |parts|, |parts[0]|
  {
    if |parts[0]| == 0 {
      if |parts| > 1 {
        SplitJoin(parts[1..], sep);
        assert Join(parts, sep) == [sep] + Join(parts[1..], sep);
        assert ([sep] + Join(parts[1..], sep))[1..] == Join(parts[1..], sep);
      }
    } else {
      var c := parts[0][0];
      var shorter := [parts[0][1..]] + parts[1..];
      SplitJoin(shorter, sep);
      if |parts| == 1 {
        assert Join(parts, sep)[1..] == Join(shorter, sep);
      } else {
        assert Join(parts, sep) == parts[0] + [sep] + Join(parts[1..], sep);
        assert Join(shorter, sep) == parts[0][1..] + [sep] + Join(parts[1..], sep);
        assert Join(parts, sep)[1..] == Join(shorter, sep);
      }
      assert shorter[1..] == parts[1..];
      assert [c] + shorter[0] == parts[0];
    }
  }

  /** `parts.filter(part => part !== 'www')`. */
  function DropWww(parts: seq<string>): (kept: seq<string>)
    ensures |kept| <= |parts|
    ensures forall k :: 0 <= k < |kept| ==> kept[k] != "www" && kept[k] in parts
  {
    if |parts| == 0 then []
    else if parts[0] == "www" then DropWww(parts[1..])
    else [parts[0]] + DropWww(parts[1..])
  }

  /**
   * A URL as the extension receives it. `host` is what the platform's URL
   * parser yields for `href`; None when `new URL(href)` throws.
   */
  datatype Url = Url(href: string, host: Option<string>)

  /** The labels `getTLD` keeps: the host's labels other than `www`. */
  function HostLabels(host: string): seq<string> {
    DropWww(Split(host, '.'))
  }

  /** `getTLD`: the last two non-`www` labels of the host, else the host, else the input. */
  function GetTLD(url: Url): string {
    match url.host
    case None => url.href
    case Some(h) =>
      var parts := HostLabels(h);
      if |parts| >= 2 then Join(parts[|parts| - 2..], '.') else h
  }

  /**
   * What `getTLD` promises: the input when parsing fails; otherwise the last
   * two kept labels, joined by a dot, which split back into exactly those two;
   * otherwise the host itself.
   */
  lemma TLDShape(url: Url)
    ensures url.host.None? ==> GetTLD(url) == url.href
    ensures url.host.Some? && |HostLabels(url.host.value)| < 2 ==> GetTLD(url) == url.host.value
    ensures url.host.Some? && |HostLabels(url.host.value)| >= 2 ==>
      var parts := HostLabels(url.host.value);
      && GetTLD(url) == parts[|parts| - 2] + "." + parts[|parts| - 1]
      && Split(GetTLD(url), '.') == [parts[|parts| - 2], parts[|parts| - 1]]
  {
    if url.host.Some? && |HostLabels(url.host.value)| >= 2 {
      var parts := HostLabels(url.host.value);
      var last2 := parts[|parts| - 2..];
      assert last2 == [parts[|parts| - 2], parts[|parts| - 1]];
      forall k | 0 <= k < 2 ensures '.' !in last2[k] {
        assert last2[k] in Split(url.host.value, '.');
      }
      SplitJoin(last2, '.');
    }
  }

  /**
   * A domain `getTLD` produced is its own domain: a URL whose host is that
   * domain, whatever its full text, maps back to it.
   */
  lemma {:induction false} TLDIdempotent(url: Url, href: string)
    requires url.host.Some?
    ensures var d := GetTLD(url); GetTLD(Url(href, Some(d))) == d
  {
    var h := url.host.value;
    var parts := HostLabels(h);
    TLDShape(url);
    var d := GetTLD(url);
    if |parts| >= 2 {
      var a, b := parts[|parts| - 2], parts[|parts| - 1];
      assert Split(d, '.') == [a, b];
      KeepsNonWww(a, b);
      assert HostLabels(d) == [a, b];
      assert [a, b][0..] == [a, b];
      assert d == Join([a, b], '.') by {
        assert Join([a, b], '.') == a + ['.'] + Join([b], '.');
      }
    } else {
      assert d == h;
    }
  }

  /**
   * `getTLD` keeps the last two labels even when they form a public suffix:
   * `www.bbc.co.uk` becomes `co.uk`, not `bbc.co.uk`.
   */
  lemma TLDKeepsLastTwo(href: string, a: string, b: string, c: string)
    requires '.' !in a && '.' !in b && '.' !in c
    requires a != "www" && b != "www" && c != "www"
    ensures GetTLD(Url(href, Some("www." + a + "." + b + "." + c))) == b + "." + c
  {
    var parts := ["www", a, b, c];
    JoinFour(a, b, c);
    SplitJoin(parts, '.');
    DropLeadingWww(a, b, c);
    TLDShape(Url(href, Some("www." + a + "." + b + "." + c)));
  }

  lemma JoinFour(a: string, b: string, c: string)
    ensures Join(["www", a, b, c], '.') == "www." + a + "." + b + "." + c
  {
    var parts := ["www", a, b, c];
    assert parts[3..] == [c];
    assert parts[2..] == [b, c];
    assert parts[1..] == [a, b, c];
    assert Join(parts[2..], '.') == b + "." + c;
    assert Join(parts[1..], '.') == a + "." + b + "." + c;
  }

  lemma DropLeadingWww(a: string, b: string, c: string)
    requires a != "www" && b != "www" && c != "www"
    ensures DropWww(["www", a, b, c]) == [a, b, c]
  {
    KeepsNonWww(b, c);
    assert [a, b, c][1..] == [b, c];
    assert DropWww([a, b, c]) == [a, b, c];
    assert ["www", a, b, c][1..] == [a, b, c];
  }

  /** A host of one label other than `www` (`localhost`, `settings`) is its own domain. */
  lemma TLDSingleLabel(href: string, host: string)
    requires '.' !in host && host != "www"
    ensures GetTLD(Url(href, Some(host))) == host
  {
    var parts := [host];
    SplitJoin(parts, '.');
    assert Join(parts, '.') == host;
    assert DropWww(parts) == parts by {
      assert parts[1..] == [];
    }
  }

  lemma KeepsNonWww(a: string, b: string)
    requires a != "www" && b != "www"
    ensures DropWww([a, b]) == [a, b]
  {
    assert [a, b][1..] == [b];
    assert [b][1..] == [];
  }

  // ---------------------------------------------------------------------------
  // Identifiers

  const IdAlphabet: string := "ABCDEFGHIJKLMNOPQRSTUVWXYZ0123456789"

  /** The shape of an identifier `generateId` produces: six upper-case letters or digits. */
  predicate IsId(s: string) {
    |s| == 6 && forall k :: 0 <= k < |s| ==> s[k] in IdAlphabet
  }

  type Id = s: string | IsId(s) witness "AAAAAA"

  /**
   * `generateId`. `draws[i]` is `Math.floor(Math.random() * 36)` on the
   * i-th turn of the loop, so each draw lies in 0..35.
   */
  method GenerateId(draws: seq<nat>) returns (id: string)
    requires |draws| == 6
    requires forall k :: 0 <= k < 6 ==> draws[k] < |IdAlphabet|
    ensures IsId(id)
    ensures forall k :: 0 <= k < 6 ==> id[k] == IdAlphabet[draws[k]]
  {
    id := "";
    for i := 0 to 6
      invariant |id| == i
      invariant forall k :: 0 <= k < i ==> id[k] == IdAlphabet[draws[k]]
    {
      id := id + [IdAlphabet[draws[i]]];
    }
  }
}
