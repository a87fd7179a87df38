/**
 * The two URL checks of ConverterCard (src/components/ConverterCard.tsx):
 *
 *   isValidYouTubeUrl  /^(https?:\/\/)?(www\.)?(youtube\.com|youtu\.be)\/.+/
 *   extractVideoId     /(?:youtube\.com\/(?:[^\/]+\/.+\/|(?:v|e(?:mbed)?)\/|.*[?&]v=)|youtu\.be\/)([^"&?\/\s]{11})/
 *
 * Each is given twice: as a deterministic scan that follows the backtracking order of
 * a JavaScript regular expression (leftmost start, alternatives in order, greedy
 * repetitions longest first), and as a declarative description of the strings the
 * pattern matches; the lemmas connect the two.
 */
module YouTubeUrl {
  import opened Wrappers
  import opened JsText

  const IdLength: nat := 11

  const Schemes: seq<string> := ["", "http://", "https://"]
  const Subdomains: seq<string> := ["", "www."]
  const Hosts: seq<string> := ["youtube.com", "youtu.be"]

  /* ----- isValidYouTubeUrl ----- */

  /** `w` followed by "/" and at least one character that `.` accepts, at the start of text. */
  predicate StartsWithPath(text: string, w: string) {
    HasAt(text, 0, w + "/") && |w| + 1 < |text| && !IsLineTerminator(text[|w| + 1])
  }

  /** The strings the anchored pattern accepts: some scheme, subdomain and host choice fits. */
  predicate AcceptedUrl(text: string) {
    exists s, w, h :: 0 <= s < |Schemes| && 0 <= w < |Subdomains| && 0 <= h < |Hosts|
                      && StartsWithPath(text, Schemes[s] + Subdomains[w] + Hosts[h])
  }

  /** Index of the scheme the pattern takes: "https://" or "http://" when present, else none. */
  function SchemeChoice(text: string): (s: nat)
    ensures s < |Schemes| && HasAt(text, 0, Schemes[s])
  {
    if HasAt(text, 0, "https://") then 2 else if HasAt(text, 0, "http://") then 1 else 0
  }

  /** Index of the subdomain the pattern takes after the scheme. */
  function SubdomainChoice(text: string): (w: nat)
    ensures w < |Subdomains| && HasAt(text, |Schemes[SchemeChoice(text)]|, Subdomains[w])
  {
    if HasAt(text, |Schemes[SchemeChoice(text)]|, "www.") then 1 else 0
  }

  /**
   * isValidYouTubeUrl. Every host begins with 'y', which neither optional group can
   * begin with, so taking each optional group whenever it is present decides the
   * pattern; AcceptedUrlForcesChoice shows no other choice could succeed.
   */
  function IsValidYouTubeUrl(text: string): (valid: bool)
    ensures valid <==> AcceptedUrl(text)
  {
    var s := SchemeChoice(text);
    var w := SubdomainChoice(text);
    var valid := StartsWithPath(text, Schemes[s] + Subdomains[w] + Hosts[0])
                 || StartsWithPath(text, Schemes[s] + Subdomains[w] + Hosts[1]);
    if valid then valid
    else
      assert !AcceptedUrl(text) by {
        forall s', w', h | 0 <= s' < |Schemes| && 0 <= w' < |Subdomains| && 0 <= h < |Hosts|
          ensures !StartsWithPath(text, Schemes[s'] + Subdomains[w'] + Hosts[h])
        {
          if StartsWithPath(text, Schemes[s'] + Subdomains[w'] + Hosts[h]) {
            AcceptedUrlForcesChoice(text, s', w', h);
          }
        }
      }
      valid
  }

  /** Any scheme, subdomain and host that fit the text are the ones the scan takes. */
  lemma AcceptedUrlForcesChoice(text: string, s: nat, w: nat, h: nat)
    requires s < |Schemes| && w < |Subdomains| && h < |Hosts|
    requires HasAt(text, 0, Schemes[s] + Subdomains[w] + Hosts[h])
    ensures s == SchemeChoice(text) && w == SubdomainChoice(text)
  {
    var rest := Subdomains[w] + Hosts[h];
    assert Schemes[s] + Subdomains[w] + Hosts[h] == Schemes[s] + rest;
    SchemeForced(text, s, rest);
    assert HasAt(text, |Schemes[s]|, Subdomains[w] + Hosts[h]) by {
      PrefixShift(text, Schemes[s], rest);
    }
    SubdomainForced(text, |Schemes[s]|, w, Hosts[h]);
  }

  /** A word at the start of the text puts each of its tails at the matching offset. */
  lemma PrefixShift(text: string, a: string, b: string)
    ensures HasAt(text, 0, a + b) ==> HasAt(text, |a|, b)
  {
    if HasAt(text, 0, a + b) {
      assert text[|a|..|a| + |b|] == (a + b)[|a|..];
    }
  }

  /** A scheme followed by 'w' or 'y' is the scheme the scan takes. */
  lemma SchemeForced(text: string, s: nat, rest: string)
    requires s < |Schemes| && 0 < |rest| && (rest[0] == 'w' || rest[0] == 'y')
    requires HasAt(text, 0, Schemes[s] + rest)
    ensures SchemeChoice(text) == s
  {
    var x := Schemes[s] + rest;
    assert text[..|x|] == x;
    if s == 0 {
      assert text[0] == rest[0];
      assert !HasAt(text, 0, "https://") && !HasAt(text, 0, "http://") by {
        assert "https://"[0] == 'h' && "http://"[0] == 'h';
      }
    } else if s == 1 {
      assert text[4] == ':';
      assert !HasAt(text, 0, "https://") by {
        assert "https://"[4] == 's';
      }
      assert text[..7] == "http://";
    } else {
      assert text[..8] == "https://";
    }
  }

  /** A subdomain followed by a host is the subdomain the scan takes. */
  lemma SubdomainForced(text: string, l: nat, w: nat, host: string)
    requires w < |Subdomains| && 0 < |host| && host[0] == 'y'
    requires HasAt(text, l, Subdomains[w] + host)
    ensures HasAt(text, l, "www.") <==> w == 1
  {
    var x := Subdomains[w] + host;
    assert text[l..l + |x|] == x;
    if w == 0 {
      assert text[l] == 'y';
      assert !HasAt(text, l, "www.") by {
        assert "www."[0] == 'w';
      }
    } else {
      assert text[l..l + 4] == x[..4] == "www.";
    }
  }

  /* ----- extractVideoId ----- */

  /** `[^"&?\/\s]`: a character the video-id group accepts. */
  predicate IsIdChar(c: char) {
    c != '"' && c != '&' && c != '?' && c != '/' && !IsJsWhitespace(c)
  }

  /** Eleven id characters start at position i. */
  predicate IdAt(text: string, i: nat) {
    i + IdLength <= |text| && forall j :: i <= j < i + IdLength ==> IsIdChar(text[j])
  }

  predicate NoLineTerminator(text: string, lo: nat, hi: nat)
    requires hi <= |text|
  {
    forall j :: lo <= j < hi ==> !IsLineTerminator(text[j])
  }

  predicate NoSlash(text: string, lo: nat, hi: nat)
    requires hi <= |text|
  {
    forall j :: lo <= j < hi ==> text[j] != '/'
  }

  /** `[^\/]+\/.+\/` from position a with the id at i: a run without '/', a '/', a non-empty run `.` accepts, a '/'. */
  predicate PathMatch(text: string, a: nat, i: nat) {
    3 <= i <= |text| && text[i - 1] == '/'
    && exists s :: a < s < i - 2 && text[s] == '/' && NoSlash(text, a, s) && NoLineTerminator(text, s + 1, i - 1)
  }

  /** `(?:v|e(?:mbed)?)\/` from position a with the id at i. */
  predicate PrefixMatch(text: string, a: nat, i: nat) {
    (HasAt(text, a, "v/") && i == a + 2) || (HasAt(text, a, "embed/") && i == a + 6) || (HasAt(text, a, "e/") && i == a + 2)
  }

  /** `.*[?&]v=` from position a with the id at i. */
  predicate QueryMatch(text: string, a: nat, i: nat) {
    a + 3 <= i <= |text| && (text[i - 3] == '?' || text[i - 3] == '&') && HasAt(text, i - 2, "v=")
    && NoLineTerminator(text, a, i - 3)
  }

  /** The unanchored pattern can match starting at p with the captured id at i. */
  predicate RegexMatch(text: string, p: nat, i: nat) {
    IdAt(text, i)
    && ((HasAt(text, p, "youtu.be/") && i == p + 9)
        || (HasAt(text, p, "youtube.com/")
            && (PathMatch(text, p + 12, i) || PrefixMatch(text, p + 12, i) || QueryMatch(text, p + 12, i))))
  }

  /** The greatest q in [lo, hi) satisfying P: a greedy repetition tried longest first. */
  function LastWhere(P: nat -> bool, lo: nat, hi: nat): (r: Option<nat>)
    ensures r.Some? ==> lo <= r.value < hi && P(r.value) && forall q :: r.value < q < hi ==> !P(q)
    ensures r.None? ==> forall q :: lo <= q < hi ==> !P(q)
    decreases hi
  {
    if hi <= lo then None else if P(hi - 1) then Some(hi - 1) else LastWhere(P, lo, hi - 1)
  }

  /** The first '/' at or after position a. */
  function SlashFrom(text: string, a: nat): (r: Option<nat>)
    ensures r.Some? ==> a <= r.value < |text| && text[r.value] == '/' && NoSlash(text, a, r.value)
    ensures r.None? ==> a >= |text| || NoSlash(text, a, |text|)
    decreases |text| - a
  {
    if a >= |text| then None else if text[a] == '/' then Some(a) else SlashFrom(text, a + 1)
  }

  /** End of the line containing position a: where a `.` repetition from a must stop. */
  function LineEnd(text: string, a: nat): (e: nat)
    requires a <= |text|
    ensures a <= e <= |text| && NoLineTerminator(text, a, e)
    ensures e < |text| ==> IsLineTerminator(text[e])
    decreases |text| - a
  {
    if a == |text| || IsLineTerminator(text[a]) then a else LineEnd(text, a + 1)
  }

  predicate SlashBeforeId(text: string, q: nat) {
    q < |text| && text[q] == '/' && IdAt(text, q + 1)
  }

  predicate QueryBeforeId(text: string, q: nat) {
    q < |text| && (text[q] == '?' || text[q] == '&') && HasAt(text, q + 1, "v=") && IdAt(text, q + 3)
  }

  /** No path match after "youtube.com/" at a is followed by an id. */
  ghost predicate NoPathMatch(text: string, a: nat) {
    forall i: nat :: !(PathMatch(text, a, i) && IdAt(text, i))
  }

  /** None of "v/", "embed/", "e/" at a is followed by an id. */
  ghost predicate NoPrefixMatch(text: string, a: nat) {
    forall i: nat :: !(PrefixMatch(text, a, i) && IdAt(text, i))
  }

  /** The id position greedy `.+\/` settles on: the last one a path match allows. */
  ghost predicate PathChoice(text: string, a: nat, i: nat) {
    PathMatch(text, a, i) && IdAt(text, i) && forall j: nat :: i < j ==> !(PathMatch(text, a, j) && IdAt(text, j))
  }

  /** The id position greedy `.*[?&]v=` settles on: the last one a query match allows. */
  ghost predicate QueryChoice(text: string, a: nat, i: nat) {
    QueryMatch(text, a, i) && IdAt(text, i) && forall j: nat :: i < j ==> !(QueryMatch(text, a, j) && IdAt(text, j))
  }

  /**
   * The id position captured after "youtube.com/" at a: the path alternative when it can
   * succeed, else the prefix alternative, else the query alternative.
   */
  ghost predicate WatchChoice(text: string, a: nat, i: nat) {
    || PathChoice(text, a, i)
    || (NoPathMatch(text, a) && PrefixMatch(text, a, i) && IdAt(text, i))
    || (NoPathMatch(text, a) && NoPrefixMatch(text, a) && QueryChoice(text, a, i))
  }

  /** The id position a match starting at p captures. */
  ghost predicate MatchChoice(text: string, p: nat, i: nat) {
    || (HasAt(text, p, "youtube.com/") && WatchChoice(text, p + 12, i))
    || (HasAt(text, p, "youtu.be/") && IdAt(text, p + 9) && i == p + 9)
  }

  /**
   * First alternative after "youtube.com/": `[^\/]+` must run to the first '/', and the
   * greedy `.+\/` then takes the last '/' on that line that is followed by an id.
   */
  function PathForm(text: string, a: nat): (r: Option<nat>)
    ensures r.Some? ==> PathChoice(text, a, r.value)
    ensures r.None? ==> NoPathMatch(text, a)
  {
    match SlashFrom(text, a)
    case None => None
    case Some(s) =>
      if s == a then
        None
      else
        var e := LineEnd(text, s + 1);
        var idFollows := (q: nat) => SlashBeforeId(text, q);
        match LastWhere(idFollows, s + 2, e)
        case None =>
          assert forall q :: s + 2 <= q < e ==> !SlashBeforeId(text, q) by {
            forall q | s + 2 <= q < e ensures !SlashBeforeId(text, q) {
              assert !idFollows(q);
            }
          }
          NoPathMatchOnLine(text, a, s);
          None
        case Some(q) =>
          assert forall q' :: q < q' < e ==> !SlashBeforeId(text, q') by {
            forall q' | q < q' < e ensures !SlashBeforeId(text, q') {
              assert !idFollows(q');
            }
          }
          LastPathMatch(text, a, s, q);
          Some(q + 1)
  }

  /** With no '/' followed by an id on the line after the first '/', no path match succeeds. */
  lemma NoPathMatchOnLine(text: string, a: nat, s: nat)
    requires a < s < |text| && text[s] == '/' && NoSlash(text, a, s)
    requires forall q :: s + 2 <= q < LineEnd(text, s + 1) ==> !SlashBeforeId(text, q)
    ensures NoPathMatch(text, a)
  {
    forall i: nat ensures !(PathMatch(text, a, i) && IdAt(text, i)) {
      PathMatchUsesFirstSlash(text, a, i, s);
      assert i >= 1 ==> SlashBeforeId(text, i - 1) || !(PathMatch(text, a, i) && IdAt(text, i));
    }
  }

  /** The last '/' followed by an id on the line after the first '/' gives the path match the greedy `.+` takes. */
  lemma LastPathMatch(text: string, a: nat, s: nat, q: nat)
    requires a < s < |text| && text[s] == '/' && NoSlash(text, a, s)
    requires s + 2 <= q < LineEnd(text, s + 1) && SlashBeforeId(text, q)
    requires forall q' :: q < q' < LineEnd(text, s + 1) ==> !SlashBeforeId(text, q')
    ensures PathChoice(text, a, q + 1)
  {
    assert PathMatch(text, a, q + 1) by {
      assert a < s < q - 1 && text[s] == '/' && NoSlash(text, a, s) && NoLineTerminator(text, s + 1, q);
    }
    forall j: nat | q + 1 < j ensures !(PathMatch(text, a, j) && IdAt(text, j)) {
      PathMatchUsesFirstSlash(text, a, j, s);
      assert SlashBeforeId(text, j - 1) || !(PathMatch(text, a, j) && IdAt(text, j));
    }
  }

  /** In a path match, the '/' after the first run is the first '/' after a, and the id's '/' lies on its line. */
  lemma PathMatchUsesFirstSlash(text: string, a: nat, i: nat, s: nat)
    requires a < s < |text| && text[s] == '/' && NoSlash(text, a, s)
    ensures PathMatch(text, a, i) ==> s + 2 <= i - 1 < LineEnd(text, s + 1)
  {
    if PathMatch(text, a, i) {
      var s': nat :| a < s' < i - 2 && text[s'] == '/' && NoSlash(text, a, s') && NoLineTerminator(text, s' + 1, i - 1);
      assert s' == s;
      var e := LineEnd(text, s + 1);
    }
  }

  /** Second alternative after "youtube.com/": "v/", then "embed/", then "e/", each followed by an id. */
  function PrefixForm(text: string, a: nat): (r: Option<nat>)
    ensures r.Some? ==> PrefixMatch(text, a, r.value) && IdAt(text, r.value)
    ensures r.None? ==> forall i: nat :: !(PrefixMatch(text, a, i) && IdAt(text, i))
  {
    if HasAt(text, a, "v/") && IdAt(text, a + 2) then Some(a + 2)
    else if HasAt(text, a, "embed/") && IdAt(text, a + 6) then Some(a + 6)
    else if HasAt(text, a, "e/") && IdAt(text, a + 2) then Some(a + 2)
    else None
  }

  /** Third alternative after "youtube.com/": the greedy `.*` takes the last "?v=" or "&v=" on the line followed by an id. */
  function QueryForm(text: string, a: nat): (r: Option<nat>)
    requires a <= |text|
    ensures r.Some? ==> QueryChoice(text, a, r.value)
    ensures r.None? ==> forall i: nat :: !(QueryMatch(text, a, i) && IdAt(text, i))
  {
    var e := LineEnd(text, a);
    var idFollows := (q: nat) => QueryBeforeId(text, q);
    match LastWhere(idFollows, a, e)
    case None =>
      assert forall q :: a <= q < e ==> !QueryBeforeId(text, q) by {
        forall q | a <= q < e ensures !QueryBeforeId(text, q) {
          assert !idFollows(q);
        }
      }
      NoQueryMatchOnLine(text, a);
      None
    case Some(q) =>
      assert forall q' :: q < q' < e ==> !QueryBeforeId(text, q') by {
        forall q' | q < q' < e ensures !QueryBeforeId(text, q') {
          assert !idFollows(q');
        }
      }
      LastQueryMatch(text, a, q);
      Some(q + 3)
  }

  /** With no "?v=" or "&v=" followed by an id on the line, no query match succeeds. */
  lemma NoQueryMatchOnLine(text: string, a: nat)
    requires a <= |text|
    requires forall q :: a <= q < LineEnd(text, a) ==> !QueryBeforeId(text, q)
    ensures forall i: nat :: !(QueryMatch(text, a, i) && IdAt(text, i))
  {
    forall i: nat ensures !(QueryMatch(text, a, i) && IdAt(text, i)) {
      QueryOnLine(text, a, i);
      assert i >= 3 ==> QueryBeforeId(text, i - 3) || !(QueryMatch(text, a, i) && IdAt(text, i));
    }
  }

  /** The last "?v=" or "&v=" followed by an id on the line gives the query match the greedy `.*` takes. */
  lemma LastQueryMatch(text: string, a: nat, q: nat)
    requires a <= |text| && a <= q < LineEnd(text, a) && QueryBeforeId(text, q)
    requires forall q' :: q < q' < LineEnd(text, a) ==> !QueryBeforeId(text, q')
    ensures QueryChoice(text, a, q + 3)
  {
    forall j: nat | q + 3 < j ensures !(QueryMatch(text, a, j) && IdAt(text, j)) {
      QueryOnLine(text, a, j);
      assert QueryBeforeId(text, j - 3) || !(QueryMatch(text, a, j) && IdAt(text, j));
    }
  }

  /** The '?' or '&' of a query match lies on the line that starts at a. */
  lemma QueryOnLine(text: string, a: nat, i: nat)
    requires a <= |text|
    ensures QueryMatch(text, a, i) ==> i - 3 < LineEnd(text, a)
  {
    var e := LineEnd(text, a);
    assert e < |text| ==> IsLineTerminator(text[e]);
  }

  /** The alternatives after "youtube.com/", in the order the pattern tries them. */
  function WatchForm(text: string, a: nat): (r: Option<nat>)
    requires a <= |text|
    ensures r.Some? ==> WatchChoice(text, a, r.value)
    ensures r.None? ==> forall i: nat :: !((PathMatch(text, a, i) || PrefixMatch(text, a, i) || QueryMatch(text, a, i)) && IdAt(text, i))
  {
    match PathForm(text, a)
    case Some(i) => Some(i)
    case None =>
      match PrefixForm(text, a)
      case Some(i) => Some(i)
      case None => QueryForm(text, a)
  }

  /** The two hosts cannot both start at the same position. */
  lemma HostsExclusive(text: string, p: nat)
    ensures HasAt(text, p, "youtube.com/") ==> !HasAt(text, p, "youtu.be/")
  {
    assert HasAt(text, p, "youtube.com/") ==> text[p + 5] == "youtube.com/"[5] == 'b';
    assert HasAt(text, p, "youtu.be/") ==> text[p + 5] == "youtu.be/"[5] == '.';
  }

  /** The attempt to match at position p; the captured id's position if it succeeds. */
  function MatchAt(text: string, p: nat): (r: Option<nat>)
    ensures r.Some? ==> MatchChoice(text, p, r.value)
    ensures r.None? ==> forall i: nat :: !RegexMatch(text, p, i)
  {
    HostsExclusive(text, p);
    if HasAt(text, p, "youtube.com/") then WatchForm(text, p + 12)
    else if HasAt(text, p, "youtu.be/") && IdAt(text, p + 9) then Some(p + 9)
    else None
  }

  /** Attempts at p, p + 1, ...: the leftmost position where the pattern matches. */
  function FindMatch(text: string, p: nat): (r: Option<(nat, nat)>)
    ensures r.Some? ==> p <= r.value.0 && MatchChoice(text, r.value.0, r.value.1)
                        && forall q: nat, i: nat :: p <= q < r.value.0 ==> !RegexMatch(text, q, i)
    ensures r.None? ==> forall q: nat, i: nat :: p <= q ==> !RegexMatch(text, q, i)
    decreases |text| - p
  {
    if p >= |text| then
      None
    else
      match MatchAt(text, p)
      case Some(i) => Some((p, i))
      case None => FindMatch(text, p + 1)
  }

  /** Every chosen capture is a capture the pattern allows. */
  lemma ChoiceIsMatch(text: string, p: nat, i: nat)
    ensures MatchChoice(text, p, i) ==> RegexMatch(text, p, i)
  {
  }

  /** The prefixes "v/", "embed/" and "e/" exclude one another, so they fix the id position. */
  lemma PrefixMatchUnique(text: string, a: nat, i: nat, j: nat)
    ensures PrefixMatch(text, a, i) && PrefixMatch(text, a, j) ==> i == j
  {
    if a + 1 < |text| {
      assert HasAt(text, a, "v/") ==> text[a] == "v/"[0] == 'v';
      assert HasAt(text, a, "embed/") ==> text[a] == "embed/"[0] == 'e' && text[a + 1] == "embed/"[1] == 'm';
      assert HasAt(text, a, "e/") ==> text[a] == "e/"[0] == 'e' && text[a + 1] == "e/"[1] == '/';
    }
  }

  /** At one start position at most one id position is chosen. */
  lemma MatchChoiceUnique(text: string, p: nat, i: nat, j: nat)
    ensures MatchChoice(text, p, i) && MatchChoice(text, p, j) ==> i == j
  {
    HostsExclusive(text, p);
    PrefixMatchUnique(text, p + 12, i, j);
  }

  /**
   * extractVideoId: the id captured by the leftmost match, or None when the pattern
   * matches nowhere. Its eleven characters all belong to the id class.
   */
  function ExtractVideoId(text: string): (id: Option<string>)
    ensures id.Some? <==> exists p: nat, i: nat :: RegexMatch(text, p, i)
    ensures id.Some? ==> exists p: nat, i: nat :: MatchChoice(text, p, i) && RegexMatch(text, p, i)
                           && id.value == text[i..i + IdLength]
                           && forall q: nat, j: nat :: q < p ==> !RegexMatch(text, q, j)
    ensures id.Some? ==> |id.value| == IdLength && forall k :: 0 <= k < |id.value| ==> IsIdChar(id.value[k])
  {
    match FindMatch(text, 0)
    case None => None
    case Some((p, i)) =>
      ChoiceIsMatch(text, p, i);
      Some(text[i..i + IdLength])
  }

  /**
   * The contract of ExtractVideoId determines its result: the capture chosen at the
   * leftmost matching position is the one returned.
   */
  lemma ExtractVideoIdDetermined(text: string, p: nat, i: nat)
    requires MatchChoice(text, p, i)
    requires forall q: nat, j: nat :: q < p ==> !RegexMatch(text, q, j)
    ensures ExtractVideoId(text) == Some(text[i..i + IdLength])
  {
    ChoiceIsMatch(text, p, i);
    var r := FindMatch(text, 0);
    assert r.Some? by {
      assert r.None? ==> !RegexMatch(text, p, i);
    }
    var (p', i') := r.value;
    ChoiceIsMatch(text, p', i');
    assert p <= p' by {
      assert RegexMatch(text, p', i');
    }
    assert p' <= p by {
      assert p < p' ==> !RegexMatch(text, p, i);
    }
    MatchChoiceUnique(text, p, i, i');
    assert i' == i;
    assert ExtractVideoId(text) == Some(text[i'..i' + IdLength]);
  }

  /** An extracted id is a well-formed id that occurs in the text. */
  lemma ExtractedIdOccurs(text: string)
    ensures ExtractVideoId(text).Some? ==> (IsVideoId(ExtractVideoId(text).value) && exists i: nat :: HasAt(text, i, ExtractVideoId(text).value))
  {
    match FindMatch(text, 0)
    case None =>
    case Some((p, i)) =>
      ChoiceIsMatch(text, p, i);
      var id := text[i..i + IdLength];
      assert ExtractVideoId(text) == Some(id);
      assert HasAt(text, i, id);
  }

  /** A well-formed id: eleven characters of the id class. */
  predicate IsVideoId(id: string) {
    |id| == IdLength && forall k :: 0 <= k < |id| ==> IsIdChar(id[k])
  }

  /** When the pattern matches at p0 with the id at i0, nowhere earlier, and at p0 only there, that id is extracted. */
  lemma LeftmostUnique(text: string, p0: nat, i0: nat)
    requires RegexMatch(text, p0, i0)
    requires forall q: nat, j: nat :: q < p0 ==> !RegexMatch(text, q, j)
    requires forall i: nat :: RegexMatch(text, p0, i) ==> i == i0
    ensures ExtractVideoId(text) == Some(text[i0..i0 + IdLength])
  {
    var m := MatchAt(text, p0);
    assert m.Some? by {
      assert m.None? ==> !RegexMatch(text, p0, i0);
    }
    ChoiceIsMatch(text, p0, m.value);
    assert m.value == i0;
    ExtractVideoIdDetermined(text, p0, i0);
  }

  /** A text without 'y' cannot hold either host, so the pattern cannot start inside it. */
  lemma NoMatchBefore(text: string, prefix: string)
    requires |prefix| <= |text| && text[..|prefix|] == prefix
    requires forall k :: 0 <= k < |prefix| ==> prefix[k] != 'y'
    ensures forall q: nat, j: nat :: q < |prefix| ==> !RegexMatch(text, q, j)
  {
    forall q: nat, j: nat | q < |prefix|
      ensures !RegexMatch(text, q, j)
    {
      assert text[q] == prefix[q];
      NotAt(text, q, "youtu.be/");
      NotAt(text, q, "youtube.com/");
    }
  }

  /** A word cannot occur where its first character does not. */
  lemma NotAt(text: string, q: nat, w: string)
    requires 0 < |w| && q < |text| && text[q] != w[0]
    ensures !HasAt(text, q, w)
  {
    assert q + |w| <= |text| ==> text[q..q + |w|][0] == text[q];
  }

  /** A word cannot occur where one of its characters does not. */
  lemma MismatchAt(text: string, q: nat, w: string, j: nat)
    requires j < |w| && q + j < |text| && text[q + j] != w[j]
    ensures !HasAt(text, q, w)
  {
    assert q + |w| <= |text| ==> text[q..q + |w|][j] == text[q + j];
  }

  /** A short link "youtu.be/<id>" after any text without 'y' yields its id. */
  lemma ShortLinkId(prefix: string, id: string, rest: string)
    requires forall k :: 0 <= k < |prefix| ==> prefix[k] != 'y'
    requires IsVideoId(id)
    ensures ExtractVideoId(prefix + "youtu.be/" + id + rest) == Some(id)
  {
    var text := prefix + "youtu.be/" + id + rest;
    var p0 := |prefix|;
    assert text[..p0] == prefix;
    assert text[p0..p0 + 9] == "youtu.be/";
    assert text[p0 + 9..p0 + 9 + IdLength] == id;
    NoMatchBefore(text, prefix);
    HostsExclusive(text, p0);
    LeftmostUnique(text, p0, p0 + 9);
  }

  /** A watch link "youtube.com/watch?v=<id>" yields its id when nothing after it holds '/', '?' or '&'. */
  lemma WatchLinkId(prefix: string, id: string, rest: string)
    requires forall k :: 0 <= k < |prefix| ==> prefix[k] != 'y'
    requires IsVideoId(id)
    requires forall k :: 0 <= k < |rest| ==> rest[k] != '/' && rest[k] != '?' && rest[k] != '&'
    ensures ExtractVideoId(prefix + "youtube.com/watch?v=" + id + rest) == Some(id)
  {
    var text := prefix + "youtube.com/watch?v=" + id + rest;
    var p0 := |prefix|;
    var a := p0 + 12;
    WatchLinkShape(prefix, id, rest);
    assert QueryMatch(text, a, a + 8);
    NoMatchBefore(text, prefix);
    OnlyOneQuery(text, p0, a + 5);
    LeftmostUnique(text, p0, a + 8);
  }

  /** Where the parts of a watch link sit in the text. */
  lemma WatchLinkShape(prefix: string, id: string, rest: string)
    requires IsVideoId(id)
    requires forall k :: 0 <= k < |rest| ==> rest[k] != '/' && rest[k] != '?' && rest[k] != '&'
    ensures var text := prefix + "youtube.com/watch?v=" + id + rest;
            var a := |prefix| + 12;
            && text[..|prefix|] == prefix
            && HasAt(text, |prefix|, "youtube.com/")
            && text[a..a + 8] == "watch?v="
            && text[a + 8..a + 8 + IdLength] == id
            && forall k :: a <= k < |text| && (text[k] == '/' || text[k] == '?' || text[k] == '&') ==> k == a + 5
  {
    var text := prefix + "youtube.com/watch?v=" + id + rest;
    var p0 := |prefix|;
    var a := p0 + 12;
    assert text[..p0] == prefix;
    assert text[p0..a] == "youtube.com/";
    assert text[a..a + 8] == "watch?v=";
    assert text[a + 8..a + 8 + IdLength] == id;
    assert forall k :: a + 8 + IdLength <= k < |text| ==> text[k] == rest[k - (a + 8 + IdLength)];
    assert forall k :: a <= k < a + 8 ==> text[k] == "watch?v="[k - a];
    assert forall k :: a + 8 <= k < a + 8 + IdLength ==> text[k] == id[k - (a + 8)];
  }

  /** After "youtube.com/" at p0, a lone '?' or '&' at q and no '/' leave only the query alternative. */
  lemma OnlyOneQuery(text: string, p0: nat, q: nat)
    requires HasAt(text, p0, "youtube.com/") && p0 + 12 < q < |text|
    requires text[p0 + 12] != 'v' && text[p0 + 12] != 'e'
    requires forall k :: p0 + 12 <= k < |text| && (text[k] == '/' || text[k] == '?' || text[k] == '&') ==> k == q
    requires text[q] == '?' || text[q] == '&'
    ensures forall i: nat :: RegexMatch(text, p0, i) ==> i == q + 3
  {
    var a := p0 + 12;
    HostsExclusive(text, p0);
    NotAt(text, a, "v/");
    NotAt(text, a, "embed/");
    NotAt(text, a, "e/");
    forall i: nat ensures !PathMatch(text, a, i) {
    }
  }

  /** An embed link "youtube.com/embed/<id>" yields its id when nothing after it holds '/', '?' or '&'. */
  lemma EmbedLinkId(prefix: string, id: string, rest: string)
    requires forall k :: 0 <= k < |prefix| ==> prefix[k] != 'y'
    requires IsVideoId(id)
    requires forall k :: 0 <= k < |rest| ==> rest[k] != '/' && rest[k] != '?' && rest[k] != '&'
    ensures ExtractVideoId(prefix + "youtube.com/embed/" + id + rest) == Some(id)
  {
    var text := prefix + "youtube.com/embed/" + id + rest;
    var p0 := |prefix|;
    var a := p0 + 12;
    EmbedLinkShape(prefix, id, rest);
    NoMatchBefore(text, prefix);
    HostsExclusive(text, p0);
    NotAt(text, a, "v/");
    MismatchAt(text, a, "e/", 1);
    forall i: nat ensures !PathMatch(text, a, i) && !QueryMatch(text, a, i) {
    }
    LeftmostUnique(text, p0, a + 6);
  }

  /** Where the parts of an embed link sit in the text. */
  lemma EmbedLinkShape(prefix: string, id: string, rest: string)
    requires IsVideoId(id)
    requires forall k :: 0 <= k < |rest| ==> rest[k] != '/' && rest[k] != '?' && rest[k] != '&'
    ensures var text := prefix + "youtube.com/embed/" + id + rest;
            var a := |prefix| + 12;
            && text[..|prefix|] == prefix
            && HasAt(text, |prefix|, "youtube.com/")
            && text[a..a + 6] == "embed/"
            && text[a + 6..a + 6 + IdLength] == id
            && (forall k :: a <= k < |text| && text[k] == '/' ==> k == a + 5)
            && (forall k :: a <= k < |text| ==> text[k] != '?' && text[k] != '&')
  {
    var text := prefix + "youtube.com/embed/" + id + rest;
    var p0 := |prefix|;
    var a := p0 + 12;
    assert text[..p0] == prefix;
    assert text[p0..a] == "youtube.com/";
    assert text[a..a + 6] == "embed/";
    assert text[a + 6..a + 6 + IdLength] == id;
    assert forall k :: a + 6 + IdLength <= k < |text| ==> text[k] == rest[k - (a + 6 + IdLength)];
    assert forall k :: a <= k < a + 6 ==> text[k] == "embed/"[k - a];
    assert forall k :: a + 6 <= k < a + 6 + IdLength ==> text[k] == id[k - (a + 6)];
  }

  /** Whenever "youtu.be/" is followed by an id somewhere in the text, some id is extracted. */
  lemma ShortLinkAlwaysFound(text: string, p: nat)
    requires HasAt(text, p, "youtu.be/") && IdAt(text, p + 9)
    ensures ExtractVideoId(text).Some?
  {
    assert RegexMatch(text, p, p + 9);
  }
}
