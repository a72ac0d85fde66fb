/**
 * The game-data collector script: the pieces that shape a RAWG record into the payload it
 * posts to the backend. Names are pulled from nested records, games are filtered on their
 * Metacritic score and genres, and descriptions are stripped of HTML and normalised.
 */
module Collector {
  import opened Common
  import GameFormat

  // ---------------------------------------------------------------------------------------
  // Name extraction
  // ---------------------------------------------------------------------------------------

  /** A RAWG sub-record carrying a `name`, possibly absent or empty. */
  datatype Named = Named(name: Option<string>)

  /** A RAWG platform entry: the platform record sits under the key `platform`. */
  datatype PlatformEntry = PlatformEntry(platform: Option<Named>)

  /** The names kept from a list of possibly absent names: the truthy ones, in order. */
  function KeptNames(names: seq<Option<string>>): (kept: seq<string>)
    ensures |kept| <= |names|
    ensures forall i :: 0 <= i < |kept| ==> kept[i] != ""
  {
    if |names| == 0 then []
    else KeptNames(names[..|names| - 1]) + (if Truthy(names[|names| - 1]) then [names[|names| - 1].value] else [])
  }

  /** Filtering a concatenation filters each part: the kept names stay in input order. */
  lemma {:induction false} KeptNamesAppend(a: seq<Option<string>>, b: seq<Option<string>>)
    ensures KeptNames(a + b) == KeptNames(a) + KeptNames(b)
    decreases |b|
  {
    if |b| > 0 {
      var b' := b[..|b| - 1];
      assert (a + b)[..|a + b| - 1] == a + b';
      KeptNamesAppend(a, b');
    } else {
      assert a + b == a;
    }
  }

  /** When every name is present and non-empty, nothing is dropped. */
  lemma {:induction false} KeptNamesAll(names: seq<Option<string>>)
    requires forall i :: 0 <= i < |names| ==> Truthy(names[i])
    ensures |KeptNames(names)| == |names|
    ensures forall i :: 0 <= i < |names| ==> Some(KeptNames(names)[i]) == names[i]
  {
    if |names| > 0 {
      var init := names[..|names| - 1];
      KeptNamesAll(init);
      assert KeptNames(names) == KeptNames(init) + [names[|names| - 1].value];
      assert forall i :: 0 <= i < |init| ==> init[i] == names[i];
    }
  }

  /** Every kept name is the name of some entry. */
  lemma {:induction false} KeptNamesFromInput(names: seq<Option<string>>)
    ensures forall k :: 0 <= k < |KeptNames(names)| ==>
      exists j :: 0 <= j < |names| && names[j] == Some(KeptNames(names)[k])
  {
    if |names| > 0 {
      var init := names[..|names| - 1];
      var last := names[|names| - 1];
      KeptNamesFromInput(init);
      assert KeptNames(names) == KeptNames(init) + (if Truthy(last) then [last.value] else []);
      forall k | 0 <= k < |KeptNames(names)|
        ensures exists j :: 0 <= j < |names| && names[j] == Some(KeptNames(names)[k])
      {
        if k < |KeptNames(init)| {
          var j :| 0 <= j < |init| && init[j] == Some(KeptNames(init)[k]);
          assert names[j] == init[j] && KeptNames(names)[k] == KeptNames(init)[k];
        } else {
          assert names[|names| - 1] == Some(KeptNames(names)[k]);
        }
      }
    } else {
      assert KeptNames(names) == [];
    }
  }

  function NamesOf(entries: seq<Named>): (names: seq<Option<string>>)
    ensures |names| == |entries| && forall i :: 0 <= i < |entries| ==> names[i] == entries[i].name
  {
    seq(|entries|, i requires 0 <= i < |entries| => entries[i].name)
  }

  /** `platform.get('platform', {}).get('name')`: a missing platform record has no name. */
  function PlatformNamesOf(entries: seq<PlatformEntry>): (names: seq<Option<string>>)
    ensures |names| == |entries|
    ensures forall i :: 0 <= i < |entries| ==>
      names[i] == (if entries[i].platform.Some? then entries[i].platform.value.name else None)
  {
    seq(|entries|, i requires 0 <= i < |entries| =>
      if entries[i].platform.Some? then entries[i].platform.value.name else None)
  }

  /** `get_platforms_names`. */
  method GetPlatformsNames(platforms: seq<PlatformEntry>) returns (names: seq<string>)
    ensures names == KeptNames(PlatformNamesOf(platforms))
  {
    names := [];
    for i := 0 to |platforms|
      invariant names == KeptNames(PlatformNamesOf(platforms)[..i])
    {
      assert PlatformNamesOf(platforms)[..i + 1][..i] == PlatformNamesOf(platforms)[..i];
      var name := if platforms[i].platform.Some? then platforms[i].platform.value.name else None;
      if Truthy(name) {
        names := names + [name.value];
      }
    }
    assert PlatformNamesOf(platforms)[..|platforms|] == PlatformNamesOf(platforms);
  }

  /** `get_publishers_names`. */
  method GetPublishersNames(publishers: seq<Named>) returns (names: seq<string>)
    ensures names == KeptNames(NamesOf(publishers))
  {
    names := [];
    for i := 0 to |publishers|
      invariant names == KeptNames(NamesOf(publishers)[..i])
    {
      assert NamesOf(publishers)[..i + 1][..i] == NamesOf(publishers)[..i];
      if Truthy(publishers[i].name) {
        names := names + [publishers[i].name.value];
      }
    }
    assert NamesOf(publishers)[..|publishers|] == NamesOf(publishers);
  }

  /** `get_genres_names`. */
  method GetGenresNames(genres: seq<Named>) returns (names: seq<string>)
    ensures names == KeptNames(NamesOf(genres))
  {
    names := [];
    for i := 0 to |genres|
      invariant names == KeptNames(NamesOf(genres)[..i])
    {
      assert NamesOf(genres)[..i + 1][..i] == NamesOf(genres)[..i];
      if Truthy(genres[i].name) {
        names := names + [genres[i].name.value];
      }
    }
    assert NamesOf(genres)[..|genres|] == NamesOf(genres);
  }

  // ---------------------------------------------------------------------------------------
  // Genre filter
  // ---------------------------------------------------------------------------------------

  /** The genres the backend's enum accepts, as the collector lists them. */
  const ValidGenres: set<string> := {
    "Action", "Adventure", "Indie", "Massively Multiplayer",
    "Platformer", "Puzzle", "RPG", "Racing", "Shooter", "Sports"
  }

  /** A non-empty list of accepted genres. */
  predicate GenresValid(genres: seq<string>) {
    |genres| > 0 && forall i :: 0 <= i < |genres| ==> genres[i] in ValidGenres
  }

  /** `are_genres_valid`: `False` for an empty list, then a scan that stops at the first stranger. */
  method AreGenresValid(genres: seq<string>) returns (ok: bool)
    ensures ok <==> GenresValid(genres)
  {
    if |genres| == 0 {
      return false;
    }
    for i := 0 to |genres|
      invariant forall j :: 0 <= j < i ==> genres[j] in ValidGenres
    {
      if genres[i] !in ValidGenres {
        return false;
      }
    }
    return true;
  }

  /** The collector's genre set is exactly the backend's genre table's key set. */
  lemma ValidGenresAreGenreMapKeys()
    ensures ValidGenres == GameFormat.GenreMap.Keys
  {
  }

  /**
   * A genre list the collector accepts is accepted by the backend too: it converts, and to a
   * non-empty string, so `createGame` does not refuse it.
   */
  lemma AcceptedGenresConvert(genres: seq<string>)
    requires GenresValid(genres)
    ensures forall i :: 0 <= i < |genres| ==> genres[i] in GameFormat.GenreMap
    ensures GameFormat.Join(GameFormat.EnumNames(genres), ",") != ""
  {
    ValidGenresAreGenreMapKeys();
    GameFormat.GenreColumnRoundTrip(genres);
  }

  // ---------------------------------------------------------------------------------------
  // HTML cleaning
  // ---------------------------------------------------------------------------------------

  /** Python's `str.isspace`, the separators of `str.split()` with no argument. */
  predicate PySpace(c: char) {
    ('\t' <= c <= '\r') || ('\U{001C}' <= c <= '\U{001F}') || c == ' ' || c == '\U{0085}' || c == '\U{00A0}'
    || c == '\U{1680}' || ('\U{2000}' <= c <= '\U{200A}') || c == '\U{2028}' || c == '\U{2029}'
    || c == '\U{202F}' || c == '\U{205F}' || c == '\U{3000}'
  }

  /** The position of the first `c` in `s`, or `|s|` when there is none. */
  function IndexOf(s: string, c: char): (k: nat)
    ensures k <= |s| && (k < |s| ==> s[k] == c)
    ensures forall i :: 0 <= i < k ==> s[i] != c
  {
    if |s| == 0 then 0 else if s[0] == c then 0 else 1 + IndexOf(s[1..], c)
  }

  /** `<[^>]+>` matches at the start of `s`: a `<`, at least one non-`>` and then a `>`. */
  predicate TagAt(s: string) {
    |s| >= 2 && s[0] == '<' && s[1] != '>' && IndexOf(s[1..], '>') < |s| - 1
  }

  /** No `<` is followed by one or more non-`>` characters and then a `>`. */
  predicate TagFree(t: string) {
    forall i :: 0 <= i < |t| && t[i] == '<' ==> i + 1 == |t| || t[i + 1] == '>' || '>' !in t[i + 1..]
  }

  /**
   * `re.sub(r'<[^>]+>', '', text)`: scanning left to right, each match (from a `<` to the
   * first `>` after it) is removed and scanning resumes after it.
   */
  function StripTags(s: string): (r: string)
    ensures forall i :: 0 <= i < |r| ==> r[i] in s
    ensures |s| > 0 && !TagAt(s) ==> |r| > 0 && r[0] == s[0]
    ensures TagFree(r)
    decreases |s|
  {
    if |s| == 0 then ""
    else if TagAt(s) then StripTags(s[IndexOf(s[1..], '>') + 2..])
    else
      var rest := StripTags(s[1..]);
      assert s[0] == '<' && |s| >= 2 && s[1] == '>' ==> !TagAt(s[1..]);
      assert s[0] == '<' && |s| >= 2 && s[1] != '>' ==> '>' !in s[1..];
      TagFreeCons(s[0], rest);
      [s[0]] + rest
  }

  /** A character put before tag-free text keeps it tag-free unless it opens a tag. */
  lemma TagFreeCons(c: char, rest: string)
    requires TagFree(rest)
    requires c == '<' ==> |rest| == 0 || rest[0] == '>' || '>' !in rest
    ensures TagFree([c] + rest)
  {
    var t := [c] + rest;
    assert t[1..] == rest;
    forall i | 0 <= i < |t| && t[i] == '<'
      ensures i + 1 == |t| || t[i + 1] == '>' || '>' !in t[i + 1..]
    {
      if i > 0 {
        assert t[i] == rest[i - 1];
        assert t[i + 1..] == rest[i..];
      }
    }
  }

  /** Text with no `<` passes through the tag filter untouched. */
  lemma {:induction false} StripTagsKeepsPlainText(s: string)
    requires '<' !in s
    ensures StripTags(s) == s
    decreases |s|
  {
    if |s| > 0 {
      assert !TagAt(s) && '<' !in s[1..];
      StripTagsKeepsPlainText(s[1..]);
    }
  }

  /** `pat` occurs in `s` at position `i`. */
  predicate MatchAt(s: string, pat: string, i: int) {
    0 <= i && i + |pat| <= |s| && s[i..i + |pat|] == pat
  }

  /** An occurrence of `pat` in `s`. */
  ghost predicate Occurs(s: string, pat: string) {
    exists i :: MatchAt(s, pat, i)
  }

  /** `str.replace(pat, rep)`: every non-overlapping occurrence, left to right. */
  function ReplaceAll(s: string, pat: string, rep: string): (r: string)
    requires |pat| > 0
    ensures |s| < |pat| ==> r == s
    decreases |s|
  {
    if |s| < |pat| then s
    else if s[..|pat|] == pat then rep + ReplaceAll(s[|pat|..], pat, rep)
    else [s[0]] + ReplaceAll(s[1..], pat, rep)
  }

  /** Replacing a pattern that does not occur changes nothing. */
  lemma {:induction false} ReplaceAbsent(s: string, pat: string, rep: string)
    requires |pat| > 0 && !Occurs(s, pat)
    ensures ReplaceAll(s, pat, rep) == s
    decreases |s|
  {
    if |s| >= |pat| {
      assert !MatchAt(s, pat, 0);
      if Occurs(s[1..], pat) {
        var i :| MatchAt(s[1..], pat, i);
        assert MatchAt(s, pat, i + 1);
      }
      ReplaceAbsent(s[1..], pat, rep);
    }
  }

  /** A match at the front is replaced and the scan resumes after it. */
  lemma ReplaceHit(s: string, pat: string, rep: string)
    requires |pat| > 0 && MatchAt(s, pat, 0)
    ensures ReplaceAll(s, pat, rep) == rep + ReplaceAll(s[|pat|..], pat, rep)
  {
  }

  /** Without a match at the front, the first character is kept. */
  lemma ReplaceMiss(s: string, pat: string, rep: string)
    requires |pat| > 0 && |s| >= |pat| && !MatchAt(s, pat, 0)
    ensures ReplaceAll(s, pat, rep) == [s[0]] + ReplaceAll(s[1..], pat, rep)
  {
  }

  /** A match in the tail is a match in the whole text, one position on. */
  lemma MatchInTail(s: string, pat: string, j: int)
    requires |s| > 0
    ensures MatchAt(s[1..], pat, j) <==> 0 <= j && MatchAt(s, pat, j + 1)
  {
    if 0 <= j && j + |pat| <= |s| - 1 {
      assert s[1..][j..j + |pat|] == s[j + 1..j + 1 + |pat|];
    }
  }

  /** The first match in a text, less its first character, is the first match of the tail. */
  lemma FirstMatchInTail(s: string, pat: string, i: int)
    requires 0 < i && MatchAt(s, pat, i)
    requires forall j :: 0 <= j < i ==> !MatchAt(s, pat, j)
    ensures MatchAt(s[1..], pat, i - 1)
    ensures forall j :: 0 <= j < i - 1 ==> !MatchAt(s[1..], pat, j)
  {
    MatchInTail(s, pat, i - 1);
    forall j | 0 <= j < i - 1
      ensures !MatchAt(s[1..], pat, j)
    {
      MatchInTail(s, pat, j);
    }
  }

  /** Putting the first character back in front of the rest of the prefix. */
  lemma ConsPrefix(s: string, i: int, rep: string, tail: string)
    requires 0 < i <= |s|
    ensures [s[0]] + (s[1..][..i - 1] + rep + tail) == s[..i] + rep + tail
  {
    assert [s[0]] + s[1..][..i - 1] == s[..i];
  }

  /**
   * The scan replaces the leftmost occurrence and resumes after it: the text before the first
   * match is kept, the match becomes `rep`, and the rest is replaced in turn.
   */
  lemma {:induction false} ReplaceFirst(s: string, pat: string, rep: string, i: int)
    requires |pat| > 0 && MatchAt(s, pat, i)
    requires forall j :: 0 <= j < i ==> !MatchAt(s, pat, j)
    ensures ReplaceAll(s, pat, rep) == s[..i] + rep + ReplaceAll(s[i + |pat|..], pat, rep)
    decreases i
  {
    if i == 0 {
      ReplaceHit(s, pat, rep);
      assert s[..0] == [];
    } else {
      var tail := ReplaceAll(s[i + |pat|..], pat, rep);
      calc {
        ReplaceAll(s, pat, rep);
        { ReplaceMiss(s, pat, rep); }
        [s[0]] + ReplaceAll(s[1..], pat, rep);
        { FirstMatchInTail(s, pat, i);
          ReplaceFirst(s[1..], pat, rep, i - 1);
          assert s[1..][i - 1 + |pat|..] == s[i + |pat|..]; }
        [s[0]] + (s[1..][..i - 1] + rep + tail);
        { ConsPrefix(s, i, rep, tail); }
        s[..i] + rep + tail;
      }
    }
  }

  /** Every match starts with the pattern's first character. */
  lemma MatchesLead(s: string, pat: string)
    requires |pat| > 0
    ensures forall i :: MatchAt(s, pat, i) ==> s[i] == pat[0]
  {
    forall i | MatchAt(s, pat, i)
      ensures s[i] == pat[0]
    {
      assert s[i..i + |pat|][0] == s[i];
    }
  }

  /** A pattern whose first character is absent from the text does not occur in it. */
  lemma LeadAbsent(s: string, pat: string)
    requires |pat| > 0 && pat[0] !in s
    ensures !Occurs(s, pat)
  {
    MatchesLead(s, pat);
  }

  /** The entity table, in the order the replacements are applied. */
  const Entities: seq<(string, string)> := [
    ("&amp;", "&"), ("&lt;", "<"), ("&gt;", ">"), ("&quot;", "\""), ("&apos;", "'"),
    ("&nbsp;", " "), ("&#39;", "'"), ("&#x27;", "'"), ("&#x2F;", "/"), ("&#x5C;", "\\"),
    ("&#x3D;", "=")
  ]

  predicate Patterns(es: seq<(string, string)>) {
    forall i :: 0 <= i < |es| ==> |es[i].0| > 0
  }

  /** The replacements applied one after the other, each to the previous one's output. */
  function ApplyEntities(s: string, es: seq<(string, string)>): (r: string)
    requires Patterns(es)
    decreases |es|
    ensures (forall i :: 0 <= i < |es| ==> |s| < |es[i].0|) ==> r == s
  {
    if |es| == 0 then s else ApplyEntities(ReplaceAll(s, es[0].0, es[0].1), es[1..])
  }

  /** Every pattern of `es` starts with `&`. */
  predicate Ampersanded(es: seq<(string, string)>) {
    forall i :: 0 <= i < |es| ==> |es[i].0| > 0 && es[i].0[0] == '&'
  }

  /** Text without `&` passes through any sequence of `&`-led replacements unchanged. */
  lemma {:induction false} ApplyWithoutAmpersand(s: string, es: seq<(string, string)>)
    requires Ampersanded(es) && '&' !in s
    ensures Patterns(es) && ApplyEntities(s, es) == s
    decreases |es|
  {
    if |es| > 0 {
      LeadAbsent(s, es[0].0);
      ReplaceAbsent(s, es[0].0, es[0].1);
      assert Ampersanded(es[1..]) by {
        forall i | 0 <= i < |es| - 1
          ensures |es[1..][i].0| > 0 && es[1..][i].0[0] == '&'
        {
          assert es[1..][i] == es[i + 1];
        }
      }
      ApplyWithoutAmpersand(s, es[1..]);
    }
  }

  /** Every entity of the table starts with `&`. */
  lemma EntitiesAmpersanded()
    ensures Ampersanded(Entities)
  {
  }

  /** Decoding never touches text that has no `&`. */
  lemma DecodeWithoutAmpersand(s: string)
    requires '&' !in s
    ensures Patterns(Entities) && ApplyEntities(s, Entities) == s
  {
    EntitiesAmpersanded();
    ApplyWithoutAmpersand(s, Entities);
  }

  /** Every entity is at least four characters long. */
  lemma EntityLengths()
    ensures Patterns(Entities)
    ensures forall i :: 0 <= i < |Entities| ==> |Entities[i].0| >= 4
  {
  }

  /** No whitespace inside a word. */
  predicate SpaceFree(w: string) {
    forall i :: 0 <= i < |w| ==> !PySpace(w[i])
  }

  /** The longest whitespace-free prefix of `s`. */
  function Word(s: string): (w: string)
    ensures |w| <= |s| && w == s[..|w|] && SpaceFree(w)
    ensures |w| < |s| ==> PySpace(s[|w|])
    ensures |s| > 0 && !PySpace(s[0]) ==> |w| > 0
  {
    if |s| == 0 || PySpace(s[0]) then "" else [s[0]] + Word(s[1..])
  }

  /** `str.split()`: the maximal whitespace-free runs, in order. */
  function Words(s: string): (ws: seq<string>)
    ensures forall i :: 0 <= i < |ws| ==> ws[i] != "" && SpaceFree(ws[i])
    decreases |s|
  {
    if |s| == 0 then []
    else if PySpace(s[0]) then Words(s[1..])
    else var w := Word(s); [w] + Words(s[|w|..])
  }

  /** `' '.join(s.split())`. */
  function Normalize(s: string): string {
    GameFormat.Join(Words(s), " ")
  }

  /** No whitespace at either end, and each inner whitespace is one `' '` between two words. */
  predicate Normalized(t: string) {
    (|t| > 0 ==> !PySpace(t[0]) && !PySpace(t[|t| - 1]))
    && forall i :: 0 <= i < |t| && PySpace(t[i]) ==> t[i] == ' ' && i + 1 < |t| && !PySpace(t[i + 1])
  }

  lemma {:induction false} JoinWordsNormalized(ws: seq<string>)
    requires forall i :: 0 <= i < |ws| ==> ws[i] != "" && SpaceFree(ws[i])
    ensures Normalized(GameFormat.Join(ws, " "))
    ensures |ws| > 0 ==> |GameFormat.Join(ws, " ")| > 0 && GameFormat.Join(ws, " ")[0] == ws[0][0]
  {
    if |ws| > 1 {
      JoinWordsNormalized(ws[1..]);
      var j := GameFormat.Join(ws[1..], " ");
      var t := ws[0] + " " + j;
      assert GameFormat.Join(ws, " ") == t;
      assert forall i :: 0 <= i < |ws[0]| ==> t[i] == ws[0][i];
      assert forall i :: |ws[0]| < i < |t| ==> t[i] == j[i - |ws[0]| - 1];
      assert t[|t| - 1] == j[|j| - 1];
    }
  }

  lemma {:induction false} WordOfPrefix(w: string, t: string)
    requires SpaceFree(w) && (|t| == 0 || PySpace(t[0]))
    ensures Word(w + t) == w
    decreases |w|
  {
    if |w| > 0 {
      var s := w + t;
      assert s[0] == w[0] && !PySpace(s[0]);
      assert s[1..] == w[1..] + t;
      WordOfPrefix(w[1..], t);
      assert Word(s) == [s[0]] + Word(s[1..]);
    } else {
      assert w + t == t;
    }
  }

  /** Splitting a space-joined list of words gives the words back. */
  lemma {:induction false} WordsOfJoin(ws: seq<string>)
    requires forall i :: 0 <= i < |ws| ==> ws[i] != "" && SpaceFree(ws[i])
    ensures Words(GameFormat.Join(ws, " ")) == ws
  {
    if |ws| == 1 {
      WordOfPrefix(ws[0], "");
      assert ws[0] + "" == ws[0];
      assert ws[0][|ws[0]|..] == "";
    } else if |ws| > 1 {
      var j := GameFormat.Join(ws[1..], " ");
      var t := ws[0] + " " + j;
      assert GameFormat.Join(ws, " ") == t;
      assert t == ws[0] + (" " + j);
      WordOfPrefix(ws[0], " " + j);
      assert t[|ws[0]|..] == " " + j;
      assert (" " + j)[1..] == j;
      WordsOfJoin(ws[1..]);
      assert Words(t) == [ws[0]] + Words(" " + j);
    }
  }

  /** Whitespace normalisation yields normalised text and keeps every word, in order. */
  lemma NormalizeMeaning(s: string)
    ensures Normalized(Normalize(s))
    ensures Words(Normalize(s)) == Words(s)
    ensures Normalize(Normalize(s)) == Normalize(s)
  {
    JoinWordsNormalized(Words(s));
    WordsOfJoin(Words(s));
  }

  /** The text `clean_html_tags` returns. */
  function CleanedText(text: Option<string>): string {
    if !Truthy(text) then ""
    else
      EntityLengths();
      Normalize(ApplyEntities(StripTags(text.value), Entities))
  }

  /**
   * `clean_html_tags`: `''` for an empty or missing text; otherwise tags are removed, the
   * entities are replaced one table entry after the other, and whitespace is normalised.
   */
  method CleanHtmlTags(text: Option<string>) returns (clean: string)
    ensures clean == CleanedText(text)
    ensures Normalized(clean)
  {
    if !Truthy(text) {
      return "";
    }
    EntityLengths();
    var stripped := StripTags(text.value);
    clean := stripped;
    for i := 0 to |Entities|
      invariant ApplyEntities(clean, Entities[i..]) == ApplyEntities(stripped, Entities)
    {
      assert Entities[i..][1..] == Entities[i + 1..];
      clean := ReplaceAll(clean, Entities[i].0, Entities[i].1);
    }
    assert Entities[|Entities|..] == [];
    NormalizeMeaning(clean);
    clean := Normalize(clean);
  }

  /**
   * The replacements run in sequence, so a doubly escaped `&amp;lt;` becomes `<`: the first
   * entry yields `&lt;` and the second decodes that.
   */
  /** A less-than sign escaped twice. */
  const DoubleEscaped := "&amp;lt;"

  lemma DoubleEscapeDecodes()
    ensures CleanedText(Some(DoubleEscaped)) == "<"
  {
    DoubleEscapedIsPlain();
    DecodeFirstTwo();
    NormalizeOneChar('<');
    CleanedPlainText(DoubleEscaped, "<");
  }

  lemma DoubleEscapedIsPlain()
    ensures DoubleEscaped != "" && '<' !in DoubleEscaped
  {
  }

  /** Text with no tag is only decoded and normalised. */
  lemma CleanedPlainText(t: string, decoded: string)
    requires t != "" && '<' !in t && Patterns(Entities)
    requires ApplyEntities(t, Entities) == decoded && Normalize(decoded) == decoded
    ensures CleanedText(Some(t)) == decoded
  {
    StripTagsKeepsPlainText(t);
  }

  /** Non-empty text with neither `<` nor `&` is only normalised. */
  lemma CleanedTextWithoutMarkup(t: string)
    requires t != "" && '<' !in t && '&' !in t
    ensures CleanedText(Some(t)) == Normalize(t)
  {
    StripTagsKeepsPlainText(t);
    DecodeWithoutAmpersand(t);
  }

  /** The first two table entries turn `&amp;lt;` into `<`; the longer patterns leave it alone. */
  lemma DecodeFirstTwo()
    ensures Patterns(Entities) && ApplyEntities(DoubleEscaped, Entities) == "<"
  {
    EntityLengths();
    assert DoubleEscaped == "&amp;lt;";
    var e0, e1 := Entities[0], Entities[1];
    assert e0 == ("&amp;", "&") && e1 == ("&lt;", "<");
    var rest := Entities[2..];
    assert Entities[1..] == [e1] + rest;
    DecodeAmp();
    DecodeLt();
    assert ApplyEntities("<", rest) == "<";
    assert ApplyEntities("&lt;", [e1] + rest) == ApplyEntities("<", rest);
  }

  lemma DecodeAmp()
    ensures ReplaceAll("&amp;lt;", "&amp;", "&") == "&lt;"
  {
    assert "&amp;lt;"[..5] == "&amp;" && "&amp;lt;"[5..] == "lt;";
    assert ReplaceAll("lt;", "&amp;", "&") == "lt;";
  }

  lemma DecodeLt()
    ensures ReplaceAll("&lt;", "&lt;", "<") == "<"
  {
    assert "&lt;"[..4] == "&lt;" && "&lt;"[4..] == "";
  }

  lemma NormalizeOneChar(c: char)
    requires !PySpace(c)
    ensures Normalize([c]) == [c]
  {
    assert Word([c]) == [c];
    assert [c][1..] == "";
    assert Words([c]) == [[c]];
  }

  // ---------------------------------------------------------------------------------------
  // Record shaping
  // ---------------------------------------------------------------------------------------

  /** The fields the collector reads from a RAWG game record. */
  datatype RawgGame = RawgGame(
    name: Option<string>, released: Option<string>, description: Option<string>,
    backgroundImage: Option<string>, playtime: Option<int>,
    platforms: seq<PlatformEntry>, genres: seq<Named>, publishers: seq<Named>,
    metacritic: Option<int>)

  /** The ten-field payload posted to the backend. */
  datatype GamePayload = GamePayload(
    name: Option<string>, releaseDate: Option<string>, description: string,
    backgroundImage: Option<string>, playtime: Option<int>,
    platforms: seq<string>, genres: seq<string>, publishers: seq<string>,
    metacriticScore: int, screenshots: seq<string>)

  /**
   * `format_game_data`: `None` for a game without a (non-zero) Metacritic score or without an
   * accepted genre list; otherwise the payload with names extracted and the description cleaned.
   */
  method FormatGameData(game: RawgGame, screenshots: seq<string>) returns (r: Option<GamePayload>)
    ensures r.None? <==>
      game.metacritic.None? || game.metacritic == Some(0) || !GenresValid(KeptNames(NamesOf(game.genres)))
    ensures r.Some? ==> r.value == GamePayload(
      game.name, game.released, CleanedText(game.description), game.backgroundImage, game.playtime,
      KeptNames(PlatformNamesOf(game.platforms)), KeptNames(NamesOf(game.genres)),
      KeptNames(NamesOf(game.publishers)), game.metacritic.value, screenshots)
  {
    if game.metacritic.None? || game.metacritic == Some(0) {
      return None;
    }
    var genres := GetGenresNames(game.genres);
    var ok := AreGenresValid(genres);
    if !ok {
      return None;
    }
    var description := CleanHtmlTags(game.description);
    var platforms := GetPlatformsNames(game.platforms);
    var publishers := GetPublishersNames(game.publishers);
    r := Some(GamePayload(
      game.name, game.released, description, game.backgroundImage, game.playtime,
      platforms, genres, publishers, game.metacritic.value, screenshots));
  }
}
