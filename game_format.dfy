/**
 * The pure helpers of the game services: the genre table and its conversion to enum names,
 * and the comma-list encoding that stores a list column as one string.
 */
module GameFormat {
  import opened Common
  import Db

  /** `genreMap`: the ten accepted genre names and the enum name each is stored as. */
  const GenreMap: map<string, string> := map[
    "Action" := "ACTION",
    "Adventure" := "ADVENTURE",
    "Indie" := "INDIE",
    "Massively Multiplayer" := "MASSIVELY_MULTIPLAYER",
    "Platformer" := "PLATFORMER",
    "Puzzle" := "PUZZLE",
    "RPG" := "RPG",
    "Racing" := "RACING",
    "Shooter" := "SHOOTER",
    "Sports" := "SPORTS"]

  /** The characters `String.prototype.trim` removes: white space and line terminators. */
  predicate JsSpace(c: char) {
    '\t' <= c <= '\r' || c == ' ' || c == '\U{00A0}' || c == '\U{1680}'
    || '\U{2000}' <= c <= '\U{200A}' || c == '\U{2028}' || c == '\U{2029}'
    || c == '\U{202F}' || c == '\U{205F}' || c == '\U{3000}' || c == '\U{FEFF}'
  }

  /** `Array.prototype.join`. */
  function Join(xs: seq<string>, sep: string): string
    decreases |xs|
  {
    if |xs| == 0 then "" else if |xs| == 1 then xs[0] else xs[0] + sep + Join(xs[1..], sep)
  }

  /** `String.prototype.split` on one separator character: the pieces between separators. */
  function Split(s: string, sep: char): (parts: seq<string>)
    ensures |parts| >= 1
    ensures forall i :: 0 <= i < |parts| ==> sep !in parts[i]
    ensures Join(parts, [sep]) == s
    decreases |s|
  {
    if |s| == 0 then [""]
    else if s[0] == sep then [""] + Split(s[1..], sep)
    else
      var rest := Split(s[1..], sep);
      [[s[0]] + rest[0]] + rest[1..]
  }

  /** `trimStart`: drops leading white space only. */
  function TrimStart(s: string): (t: string)
    ensures |t| == 0 || !JsSpace(t[0])
    ensures |t| <= |s| && t == s[|s| - |t|..]
    ensures forall i :: 0 <= i < |s| - |t| ==> JsSpace(s[i])
    decreases |s|
  {
    if |s| > 0 && JsSpace(s[0]) then TrimStart(s[1..]) else s
  }

  /** `trimEnd`: drops trailing white space only. */
  function TrimEnd(s: string): (t: string)
    ensures |t| == 0 || !JsSpace(t[|t| - 1])
    ensures |t| <= |s| && t == s[..|t|]
    ensures forall i :: |t| <= i < |s| ==> JsSpace(s[i])
    decreases |s|
  {
    if |s| > 0 && JsSpace(s[|s| - 1]) then TrimEnd(s[..|s| - 1]) else s
  }

  /** A string with no white space at either end. */
  predicate Trimmed(s: string) {
    |s| == 0 || (!JsSpace(s[0]) && !JsSpace(s[|s| - 1]))
  }

  /** `String.prototype.trim`. */
  function Trim(s: string): (t: string)
    ensures Trimmed(t)
    ensures forall c :: c in t ==> c in s
    ensures Trimmed(s) ==> t == s
  {
    TrimEnd(TrimStart(s))
  }

  /** A list element the comma-list encoding can carry unchanged. */
  predicate Clean(x: string) {
    |x| > 0 && ',' !in x && Trimmed(x)
  }

  /** `.map(item => item.trim()).filter(item => item.length > 0)`. */
  function TrimAndDrop(parts: seq<string>): (xs: seq<string>)
    ensures forall i :: 0 <= i < |xs| ==> |xs[i]| > 0 && Trimmed(xs[i])
    ensures (forall i :: 0 <= i < |parts| ==> ',' !in parts[i]) ==> forall i :: 0 <= i < |xs| ==> Clean(xs[i])
  {
    if |parts| == 0 then []
    else
      var t := Trim(parts[0]);
      var rest := TrimAndDrop(parts[1..]);
      CommaFreeTail(parts);
      if |t| > 0 then
        ConsKeeps(t, rest);
        [t] + rest
      else rest
  }

  /** The parts after the first are comma-free when all of them are. */
  lemma CommaFreeTail(parts: seq<string>)
    requires |parts| > 0
    ensures (forall i :: 0 <= i < |parts| ==> ',' !in parts[i]) ==>
      ',' !in parts[0] && forall i :: 0 <= i < |parts[1..]| ==> ',' !in parts[1..][i]
  {
    if forall i :: 0 <= i < |parts| ==> ',' !in parts[i] {
      forall i | 0 <= i < |parts[1..]|
        ensures ',' !in parts[1..][i]
      {
        assert parts[1..][i] == parts[i + 1];
      }
    }
  }

  /** Putting a trimmed non-empty item in front keeps every item trimmed, non-empty and, when it was, clean. */
  lemma ConsKeeps(t: string, rest: seq<string>)
    requires |t| > 0 && Trimmed(t)
    requires forall i :: 0 <= i < |rest| ==> |rest[i]| > 0 && Trimmed(rest[i])
    ensures forall i :: 0 <= i < |[t] + rest| ==> |([t] + rest)[i]| > 0 && Trimmed(([t] + rest)[i])
    ensures ',' !in t && (forall i :: 0 <= i < |rest| ==> Clean(rest[i])) ==>
      forall i :: 0 <= i < |[t] + rest| ==> Clean(([t] + rest)[i])
  {
    assert forall i :: 1 <= i < |[t] + rest| ==> ([t] + rest)[i] == rest[i - 1];
  }

  lemma TrimAndDropClean(parts: seq<string>)
    requires |parts| > 0 && Clean(parts[0])
    ensures TrimAndDrop(parts) == [parts[0]] + TrimAndDrop(parts[1..])
  {
    assert Trim(parts[0]) == parts[0];
  }

  /** Clean pieces pass through trimming and filtering unchanged. */
  lemma {:induction false} TrimAndDropKeepsClean(parts: seq<string>)
    requires forall i :: 0 <= i < |parts| ==> Clean(parts[i])
    ensures TrimAndDrop(parts) == parts
  {
    if |parts| > 0 {
      var rest := parts[1..];
      assert forall i :: 0 <= i < |rest| ==> rest[i] == parts[i + 1];
      TrimAndDropKeepsClean(rest);
      TrimAndDropClean(parts);
      HeadTail(parts);
    }
  }

  lemma HeadTail<T>(s: seq<T>)
    requires |s| > 0
    ensures [s[0]] + s[1..] == s
  {
  }

  /** `stringToArray`: `[]` for an empty column, otherwise the clean, non-empty pieces. */
  function StringToArray(s: string): (xs: seq<string>)
    ensures forall i :: 0 <= i < |xs| ==> Clean(xs[i])
  {
    if s == "" then [] else TrimAndDrop(Split(s, ','))
  }

  /** `arrayToString`: `''` for anything that is not an array (`None`), else the comma-join. */
  function ArrayToString(a: Option<seq<string>>): (s: string)
    ensures a.None? ==> s == ""
  {
    if a.Some? then Join(a.value, ",") else ""
  }

  lemma {:induction false} SplitWithout(a: string, sep: char)
    requires sep !in a
    ensures Split(a, sep) == [a]
    decreases |a|
  {
    if |a| > 0 {
      SplitWithout(a[1..], sep);
      assert [a[0]] + a[1..] == a;
    }
  }

  lemma {:induction false} SplitAfter(a: string, sep: char, rest: string)
    requires sep !in a
    ensures Split(a + [sep] + rest, sep) == [a] + Split(rest, sep)
    decreases |a|
  {
    if |a| == 0 {
      assert a + [sep] + rest == [sep] + rest;
      assert ([sep] + rest)[1..] == rest;
    } else {
      var s := a + [sep] + rest;
      assert s[0] == a[0] && s[1..] == a[1..] + [sep] + rest;
      SplitAfter(a[1..], sep, rest);
      var r := Split(s[1..], sep);
      assert r == [a[1..]] + Split(rest, sep);
      assert r[0] == a[1..] && r[1..] == Split(rest, sep);
      assert [a[0]] + a[1..] == a;
    }
  }

  /** Splitting a join gives back the pieces, provided none holds the separator. */
  lemma {:induction false} SplitJoin(xs: seq<string>, sep: char)
    requires |xs| >= 1
    requires forall i :: 0 <= i < |xs| ==> sep !in xs[i]
    ensures Split(Join(xs, [sep]), sep) == xs
    decreases |xs|
  {
    if |xs| == 1 {
      SplitWithout(xs[0], sep);
    } else {
      SplitJoin(xs[1..], sep);
      SplitAfter(xs[0], sep, Join(xs[1..], [sep]));
      assert [xs[0]] + xs[1..] == xs;
    }
  }

  lemma {:induction false} JoinLonger(xs: seq<string>, sep: string)
    requires |xs| >= 1
    ensures |Join(xs, sep)| >= |xs[0]|
  {
  }

  /**
   * `stringToArray(arrayToString(xs)) == xs` for every list of clean elements: the encoding
   * of list columns loses nothing on such lists.
   */
  lemma ArrayRoundTrip(xs: seq<string>)
    requires forall i :: 0 <= i < |xs| ==> Clean(xs[i])
    ensures StringToArray(ArrayToString(Some(xs))) == xs
  {
    if |xs| > 0 {
      JoinLonger(xs, ",");
      SplitJoin(xs, ',');
      TrimAndDropKeepsClean(xs);
    }
  }

  /** The enum names of a list of known genres, in input order. */
  function EnumNames(genres: seq<string>): (names: seq<string>)
    requires forall i :: 0 <= i < |genres| ==> genres[i] in GenreMap
    ensures |names| == |genres|
    ensures forall i :: 0 <= i < |genres| ==> names[i] == GenreMap[genres[i]]
  {
    if |genres| == 0 then [] else EnumNames(genres[..|genres| - 1]) + [GenreMap[genres[|genres| - 1]]]
  }

  /**
   * `convertGenresToEnum`: `None` (JavaScript `null`) as soon as a genre is not one of the ten
   * names, otherwise the enum names comma-joined in input order. A genre counts only when it
   * is one of the table's own ten keys.
   */
  method ConvertGenresToEnum(genres: seq<string>) returns (r: Option<string>)
    ensures r.None? <==> exists i :: 0 <= i < |genres| && genres[i] !in GenreMap
    ensures r.Some? ==> r.value == Join(EnumNames(genres), ",")
  {
    var converted: seq<string> := [];
    for i := 0 to |genres|
      invariant forall j :: 0 <= j < i ==> genres[j] in GenreMap
      invariant converted == EnumNames(genres[..i])
    {
      if genres[i] !in GenreMap {
        return None;
      }
      assert genres[..i + 1][..i] == genres[..i];
      converted := converted + [GenreMap[genres[i]]];
    }
    assert genres[..|genres|] == genres;
    return Some(Join(converted, ","));
  }

  /** An enum name: upper-case letters and underscores. */
  predicate EnumName(s: string) {
    |s| > 0 && forall i :: 0 <= i < |s| ==> 'A' <= s[i] <= 'Z' || s[i] == '_'
  }

  lemma EnumNameIsClean(s: string)
    requires EnumName(s)
    ensures Clean(s)
  {
    assert !JsSpace(s[0]) && !JsSpace(s[|s| - 1]);
    assert forall i :: 0 <= i < |s| ==> s[i] != ',';
  }

  /** Every value of the genre table is an enum name. */
  lemma GenreMapValues()
    ensures forall g :: g in GenreMap ==> EnumName(GenreMap[g])
  {
    assert EnumName("ACTION") && EnumName("ADVENTURE") && EnumName("INDIE");
    assert EnumName("MASSIVELY_MULTIPLAYER") && EnumName("PLATFORMER") && EnumName("PUZZLE");
    assert EnumName("RPG") && EnumName("RACING") && EnumName("SHOOTER") && EnumName("SPORTS");
  }

  /** Every enum name is a clean list element. */
  lemma EnumNamesClean(genres: seq<string>)
    requires forall i :: 0 <= i < |genres| ==> genres[i] in GenreMap
    ensures forall i :: 0 <= i < |genres| ==> Clean(EnumNames(genres)[i])
  {
    GenreMapValues();
    forall i | 0 <= i < |genres| ensures Clean(EnumNames(genres)[i]) {
      EnumNameIsClean(EnumNames(genres)[i]);
    }
  }

  /**
   * The stored genre column decodes to the enum names, and it is empty exactly when the
   * input list was: the empty string `createGame` refuses comes only from `[]`.
   */
  lemma GenreColumnRoundTrip(genres: seq<string>)
    requires forall i :: 0 <= i < |genres| ==> genres[i] in GenreMap
    ensures StringToArray(Join(EnumNames(genres), ",")) == EnumNames(genres)
    ensures Join(EnumNames(genres), ",") == "" <==> |genres| == 0
  {
    EnumNamesClean(genres);
    ArrayRoundTrip(EnumNames(genres));
    if |genres| > 0 {
      JoinLonger(EnumNames(genres), ",");
    }
  }

  /**
   * The names every plain JavaScript object inherits from `Object.prototype`. `genreMap[genre]`
   * finds these too, and each yields a truthy value: a function, or for `__proto__` the
   * prototype object itself.
   */
  const InheritedNames: set<string> := {
    "constructor", "__defineGetter__", "__defineSetter__", "hasOwnProperty",
    "__lookupGetter__", "__lookupSetter__", "isPrototypeOf", "propertyIsEnumerable",
    "toString", "valueOf", "__proto__", "toLocaleString"}

  /**
   * `genreMap[genre]` as written, with each inherited value as `join` prints it: the
   * prototype object for `__proto__`, the `Object` function for `constructor`, and the
   * method of that name otherwise. None of them is an enum name.
   */
  function LookupAsWritten(genre: string): (v: Option<string>)
    ensures v.None? <==> genre !in GenreMap && genre !in InheritedNames
    ensures genre in GenreMap ==> v == Some(GenreMap[genre])
    ensures genre !in GenreMap && v.Some? ==> !EnumName(v.value)
  {
    if genre in GenreMap then Some(GenreMap[genre])
    else if genre == "__proto__" then
      assert "[object Object]"[0] == '[';
      Some("[object Object]")
    else if genre == "constructor" then
      assert "function Object() { [native code] }"[0] == 'f';
      Some("function Object() { [native code] }")
    else if genre in InheritedNames then
      var printed := "function " + genre + "() { [native code] }";
      assert printed[0] == 'f';
      Some(printed)
    else None
  }

  /** The values the loop of `convertGenresToEnum` pushes, as written; `None` at the first miss. */
  function ConvertedAsWritten(genres: seq<string>): (r: Option<seq<string>>)
    ensures r.None? <==> exists i :: 0 <= i < |genres| && LookupAsWritten(genres[i]).None?
    ensures r.Some? ==> |r.value| == |genres|
  {
    if |genres| == 0 then Some([])
    else
      var rest := ConvertedAsWritten(genres[1..]);
      var v := LookupAsWritten(genres[0]);
      if v.None? || rest.None? then None else Some([v.value] + rest.value)
  }

  /** `convertGenresToEnum` as written. */
  function ConvertGenresAsWritten(genres: seq<string>): Option<string> {
    match ConvertedAsWritten(genres)
    case None => None
    case Some(vs) => Some(Join(vs, ","))
  }

  /**
   * As written, an inherited name is taken for a genre: `["toString"]` converts to the text of
   * a native function instead of `null`, and `createGame` would store it. The own-key lookup
   * of `ConvertGenresToEnum` refuses it.
   */
  lemma InheritedNameIsAccepted()
    ensures ConvertGenresAsWritten(["toString"]) == Some("function toString() { [native code] }")
    ensures "toString" !in GenreMap
  {
    var gs := ["toString"];
    assert gs[1..] == [];
    assert "toString" !in GenreMap.Keys;
    assert "toString" in InheritedNames && "toString" != "__proto__";
    assert "function " + "toString" + "() { [native code] }" == "function toString() { [native code] }";
    assert LookupAsWritten("toString") == Some("function toString() { [native code] }");
    assert ConvertedAsWritten(gs[1..]) == Some([]);
    assert ["function toString() { [native code] }"] + [] == ["function toString() { [native code] }"];
  }

  /** As written, `["constructor"]` converts to the printed `Object` function. */
  lemma ConstructorIsAccepted()
    ensures ConvertGenresAsWritten(["constructor"]) == Some("function Object() { [native code] }")
  {
    var gs := ["constructor"];
    assert gs[1..] == [];
    assert LookupAsWritten("constructor") == Some("function Object() { [native code] }");
    assert ConvertedAsWritten(gs[1..]) == Some([]);
    assert ["function Object() { [native code] }"] + [] == ["function Object() { [native code] }"];
  }

  /** The two lookups agree on every list made only of real genre names or unknown names. */
  lemma {:induction false} AsWrittenAgreesOffPrototype(genres: seq<string>)
    requires forall i :: 0 <= i < |genres| ==> genres[i] !in InheritedNames
    ensures (ConvertGenresAsWritten(genres).None?) <==> exists i :: 0 <= i < |genres| && genres[i] !in GenreMap
    ensures (forall i :: 0 <= i < |genres| ==> genres[i] in GenreMap) ==>
      ConvertedAsWritten(genres) == Some(EnumNames(genres))
  {
    if |genres| > 0 && forall i :: 0 <= i < |genres| ==> genres[i] in GenreMap {
      AsWrittenAgreesOffPrototype(genres[1..]);
      AsWrittenAgreesOnKnown(genres);
    }
  }

  /** A helper: on known names the as-written fold yields the enum names. */
  lemma {:induction false} AsWrittenAgreesOnKnown(genres: seq<string>)
    requires forall i :: 0 <= i < |genres| ==> genres[i] in GenreMap
    ensures ConvertedAsWritten(genres) == Some(EnumNames(genres))
  {
    if |genres| > 0 {
      AsWrittenAgreesOnKnown(genres[1..]);
      EnumNamesCons(genres);
    }
  }

  lemma {:induction false} EnumNamesCons(genres: seq<string>)
    requires |genres| > 0 && forall i :: 0 <= i < |genres| ==> genres[i] in GenreMap
    ensures EnumNames(genres) == [GenreMap[genres[0]]] + EnumNames(genres[1..])
  {
    var r := [GenreMap[genres[0]]] + EnumNames(genres[1..]);
    assert |r| == |genres|;
    assert forall i :: 0 <= i < |genres| ==> r[i] == EnumNames(genres)[i];
  }

  /** A game as the services answer it: the four list columns decoded. */
  datatype FormattedGame = FormattedGame(
    name: string, description: Option<string>, backgroundImage: Option<string>,
    releaseDate: string, playtime: Option<int>,
    platforms: seq<string>, genres: seq<string>, publishers: seq<string>,
    metacriticScore: Option<int>, screenshots: seq<string>,
    averageReviewRating: Option<int>)

  /**
   * `formatGameForResponse`: `null` for `null`; otherwise the list columns decoded with
   * `stringToArray` and every other field kept.
   */
  function FormatGameForResponse(g: Option<Db.Game>): (f: Option<FormattedGame>)
    ensures f.None? <==> g.None?
    ensures g.Some? ==>
      var x, y := g.value, f.value;
      y.name == x.name && y.description == x.description && y.backgroundImage == x.backgroundImage
      && y.releaseDate == x.releaseDate && y.playtime == x.playtime
      && y.metacriticScore == x.metacriticScore && y.averageReviewRating == x.averageReviewRating
      && y.platforms == StringToArray(x.platforms) && y.genres == StringToArray(x.genres)
      && y.publishers == StringToArray(x.publishers) && y.screenshots == StringToArray(x.screenshots)
  {
    match g
    case None => None
    case Some(x) =>
      Some(FormattedGame(x.name, x.description, x.backgroundImage, x.releaseDate, x.playtime,
                         StringToArray(x.platforms), StringToArray(x.genres), StringToArray(x.publishers),
                         x.metacriticScore, StringToArray(x.screenshots), x.averageReviewRating))
  }
}
