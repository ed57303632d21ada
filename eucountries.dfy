/** The in-memory registries of `vois.eucountries` (src/vois/eucountries.py):
  * countries and languages added one at a time, then filtered, sorted by
  * name or code and searched. The ISO alpha-2 to alpha-3 table, which the
  * source downloads, is a parameter. */
module EuCountries {
  import opened Wrappers

  // ---------------------------------------------------------------- strings

  /** Python's `<` on strings: code points compared left to right, a proper
    * prefix first. */
  predicate StrLt(a: string, b: string)
    decreases |a|
  {
    if |b| == 0 then false
    else if |a| == 0 then true
    else if a[0] < b[0] then true
    else if a[0] == b[0] then StrLt(a[1..], b[1..])
    else false
  }

  lemma {:induction false} StrLtAsymmetric(a: string, b: string)
    ensures !(StrLt(a, b) && StrLt(b, a))
    decreases |a|
  {
    if |a| > 0 && |b| > 0 && a[0] == b[0] {
      StrLtAsymmetric(a[1..], b[1..]);
    }
  }

  lemma {:induction false} StrLtTransitive(a: string, b: string, c: string)
    requires StrLt(a, b) && StrLt(b, c)
    ensures StrLt(a, c)
    decreases |a|
  {
    if |a| > 0 && a[0] == b[0] && b[0] == c[0] {
      StrLtTransitive(a[1..], b[1..], c[1..]);
    }
  }

  /** Exactly one of a < b, a == b, b < a. */
  lemma {:induction false} StrLtTotal(a: string, b: string)
    ensures StrLt(a, b) || a == b || StrLt(b, a)
    decreases |a|
  {
    if |a| > 0 && |b| > 0 && a[0] == b[0] {
      StrLtTotal(a[1..], b[1..]);
      if a[1..] == b[1..] {
        assert a == [a[0]] + a[1..] && b == [b[0]] + b[1..];
      }
    }
  }

  // ---------------------------------------------------------------- sorting

  /** No element has a key below that of an element before it. */
  predicate SortedBy<T>(s: seq<T>, key: T -> string) {
    forall i, j :: 0 <= i < j < |s| ==> !StrLt(key(s[j]), key(s[i]))
  }

  /** One step of Python's stable sort: `x` goes after every element whose
    * key is not above its own. */
  function InsertBy<T>(s: seq<T>, x: T, key: T -> string): (r: seq<T>)
    ensures multiset(r) == multiset(s) + multiset{x}
    ensures |r| == |s| + 1
    decreases |s|
  {
    if s == [] then [x]
    else if !StrLt(key(x), key(s[0])) then
      assert s == [s[0]] + s[1..];
      [s[0]] + InsertBy(s[1..], x, key)
    else [x] + s
  }

  lemma {:induction false} InsertSorted<T>(s: seq<T>, x: T, key: T -> string)
    requires SortedBy(s, key)
    ensures SortedBy(InsertBy(s, x, key), key)
    decreases |s|
  {
    if s == [] {
    } else if !StrLt(key(x), key(s[0])) {
      InsertSorted(s[1..], x, key);
      var r := InsertBy(s, x, key);
      var t := InsertBy(s[1..], x, key);
      assert r == [s[0]] + t;
      forall j | 0 < j < |r| ensures !StrLt(key(r[j]), key(r[0])) {
        assert r[j] in multiset(t);
        assert r[j] == x || r[j] in s[1..];
      }
    } else {
      var r := [x] + s;
      forall i, j | 0 <= i < j < |r| ensures !StrLt(key(r[j]), key(r[i])) {
        if i == 0 {
          StrLtAsymmetric(key(x), key(s[0]));
          if j > 1 && StrLt(key(r[j]), key(x)) {
            StrLtTransitive(key(r[j]), key(x), key(s[0]));
          }
        }
      }
    }
  }

  /** `sorted(s, key=...)`. */
  function SortBy<T>(s: seq<T>, key: T -> string): (r: seq<T>)
    ensures |r| == |s|
    decreases |s|
  {
    if s == [] then []
    else
      var init := s[..|s| - 1];
      InsertBy(SortBy(init, key), s[|s| - 1], key)
  }

  lemma {:induction false} SortByPermutes<T>(s: seq<T>, key: T -> string)
    ensures multiset(SortBy(s, key)) == multiset(s)
    decreases |s|
  {
    if s != [] {
      var init := s[..|s| - 1];
      SortByPermutes(init, key);
      assert s == init + [s[|s| - 1]];
    }
  }

  lemma {:induction false} SortBySorted<T>(s: seq<T>, key: T -> string)
    ensures SortedBy(SortBy(s, key), key)
    decreases |s|
  {
    if s != [] {
      var init := s[..|s| - 1];
      SortBySorted(init, key);
      InsertSorted(SortBy(init, key), s[|s| - 1], key);
    }
  }

  /** The sort returns the same elements, ordered by key. */
  lemma SortBySpec<T>(s: seq<T>, key: T -> string)
    ensures multiset(SortBy(s, key)) == multiset(s)
    ensures SortedBy(SortBy(s, key), key)
  {
    SortByPermutes(s, key);
    SortBySorted(s, key);
  }

  // ---------------------------------------------------------------- countries

  const BaseUrlFlags := "https://jeodpp.jrc.ec.europa.eu/services/shared/Notebooks/images/flags/"

  datatype Country = Country(name: string, iso2code: string, iso3code: string, euro: bool,
                             iscountry: bool, population: int, flag: string)

  function NameOf(c: Country): string { c.name }
  function CodeOf(c: Country): string { c.iso2code }

  /** The entries that are real countries, and with `euroOnly` in the Euro
    * Area, in registry order. */
  function Members(s: seq<Country>, euroOnly: bool): (r: seq<Country>)
    decreases |s|
  {
    if s == [] then []
    else
      var init := Members(s[..|s| - 1], euroOnly);
      var c := s[|s| - 1];
      if c.iscountry && (!euroOnly || c.euro) then init + [c] else init
  }

  /** An entry is a member exactly when it is in the registry, is a country
    * and, with `euroOnly`, uses the euro. */
  lemma {:induction false} MembersSpec(s: seq<Country>, euroOnly: bool, c: Country)
    ensures c in Members(s, euroOnly) <==> c in s && c.iscountry && (!euroOnly || c.euro)
    decreases |s|
  {
    if s != [] {
      MembersSpec(s[..|s| - 1], euroOnly, c);
      assert s == s[..|s| - 1] + [s[|s| - 1]];
    }
  }

  /** The key a listing is sorted by. */
  function SortKey(sortByName: bool): Country -> string {
    if sortByName then NameOf else CodeOf
  }

  /** The sorted listing holds exactly the members, each once per
    * registration, in key order. */
  lemma ListingSpec(s: seq<Country>, euroOnly: bool, sortByName: bool, c: Country)
    ensures var r := SortBy(Members(s, euroOnly), SortKey(sortByName));
      && multiset(r) == multiset(Members(s, euroOnly))
      && SortedBy(r, SortKey(sortByName))
      && (c in r <==> c in s && c.iscountry && (!euroOnly || c.euro))
  {
    SortBySpec(Members(s, euroOnly), SortKey(sortByName));
    MembersSpec(s, euroOnly, c);
    var r := SortBy(Members(s, euroOnly), SortKey(sortByName));
    assert c in r <==> c in multiset(r);
    assert c in Members(s, euroOnly) <==> c in multiset(Members(s, euroOnly));
  }

  function Codes(cs: seq<Country>): (r: seq<string>)
    ensures |r| == |cs| && forall i :: 0 <= i < |r| ==> r[i] == cs[i].iso2code
  {
    seq(|cs|, i requires 0 <= i < |cs| => cs[i].iso2code)
  }

  function Names(cs: seq<Country>): (r: seq<string>)
    ensures |r| == |cs| && forall i :: 0 <= i < |r| ==> r[i] == cs[i].name
  {
    seq(|cs|, i requires 0 <= i < |cs| => cs[i].name)
  }

  /** The first element whose key is k: the `[c for c in s if ...][0]` of
    * `byCode`, `byName` and `byAbbreviation`. */
  function First<T>(s: seq<T>, key: T -> string, k: string): (r: Option<T>)
    decreases |s|
  {
    if s == [] then None
    else if key(s[0]) == k then Some(s[0])
    else First(s[1..], key, k)
  }

  /** `First` finds an element exactly when one has the key, and then the
    * earliest such. */
  lemma {:induction false} FirstSpec<T>(s: seq<T>, key: T -> string, k: string)
    ensures First(s, key, k).None? <==> forall i :: 0 <= i < |s| ==> key(s[i]) != k
    ensures First(s, key, k).Some? ==>
              exists i :: 0 <= i < |s| && s[i] == First(s, key, k).value && key(s[i]) == k &&
                          forall j :: 0 <= j < i ==> key(s[j]) != k
    decreases |s|
  {
    if s != [] && key(s[0]) != k {
      FirstSpec(s[1..], key, k);
      if First(s, key, k).Some? {
        var i :| 0 <= i < |s[1..]| && s[1..][i] == First(s, key, k).value && key(s[1..][i]) == k &&
                 forall j :: 0 <= j < i ==> key(s[1..][j]) != k;
        assert s[i + 1] == s[1..][i];
        assert forall j :: 0 <= j < i + 1 ==> key(s[j]) != k by {
          forall j | 0 <= j < i + 1 ensures key(s[j]) != k {
            if j > 0 {
              assert s[j] == s[1..][j - 1];
            }
          }
        }
      } else {
        forall i | 0 <= i < |s| ensures key(s[i]) != k {
          if i > 0 {
            assert s[i] == s[1..][i - 1];
          }
        }
      }
    } else if s != [] {
      assert s[0] == First(s, key, k).value;
    }
  }

  /** `countries`: the class-level `countries_list`. */
  class Countries {
    const iso2iso3: map<string, string>
    var countriesList: seq<Country>

    constructor(iso2iso3: map<string, string>)
      ensures this.iso2iso3 == iso2iso3 && countriesList == []
    {
      this.iso2iso3 := iso2iso3;
      countriesList := [];
    }

    /** `add`: one new country at the end, its alpha-3 code looked up and its
      * flag URL built from the code; an unknown code raises `KeyError` and
      * adds nothing. */
    method Add(name: string, iso2code: string, euro: bool, iscountry: bool, population: int) returns (status: Status)
      modifies this`countriesList
      ensures iso2code !in iso2iso3 ==> status == Failure(KeyError) && countriesList == old(countriesList)
      ensures iso2code in iso2iso3 ==>
                status == Success &&
                countriesList == old(countriesList) + [Country(name, iso2code, iso2iso3[iso2code], euro, iscountry, population,
                                                               BaseUrlFlags + iso2code + ".png")]
    {
      if iso2code !in iso2iso3 {
        return Failure(KeyError);
      }
      var c := Country(name, iso2code, iso2iso3[iso2code], euro, iscountry, population, BaseUrlFlags + iso2code + ".png");
      countriesList := countriesList + [c];
      status := Success;
    }

    /** The filtering loop of `EuroArea` and `EuropeanUnion`. */
    method Collect(euroOnly: bool) returns (res: seq<Country>)
      ensures res == Members(countriesList, euroOnly)
    {
      res := [];
      for i := 0 to |countriesList|
        invariant res == Members(countriesList[..i], euroOnly)
      {
        assert countriesList[..i + 1][..i] == countriesList[..i];
        var c := countriesList[i];
        if c.iscountry && (!euroOnly || c.euro) {
          res := res + [c];
        }
      }
      assert countriesList[..|countriesList|] == countriesList;
    }

    /** `EuroArea(sortByName)`: the euro countries sorted by name or code. */
    method EuroArea(sortByName: bool) returns (res: seq<Country>)
      ensures res == SortBy(Members(countriesList, true), SortKey(sortByName))
    {
      var members := Collect(true);
      res := SortBy(members, SortKey(sortByName));
    }

    /** `EuropeanUnion(sortByName)`: the countries (aggregates excluded)
      * sorted by name or code. */
    method EuropeanUnion(sortByName: bool) returns (res: seq<Country>)
      ensures res == SortBy(Members(countriesList, false), SortKey(sortByName))
    {
      var members := Collect(false);
      res := SortBy(members, SortKey(sortByName));
    }

    /** `EuroAreaCodes`: the codes of `EuroArea()` in its order. */
    method EuroAreaCodes() returns (res: seq<string>)
      ensures res == Codes(SortBy(Members(countriesList, true), NameOf))
    {
      var cs := EuroArea(true);
      res := Codes(cs);
    }

    method EuropeanUnionCodes() returns (res: seq<string>)
      ensures res == Codes(SortBy(Members(countriesList, false), NameOf))
    {
      var cs := EuropeanUnion(true);
      res := Codes(cs);
    }

    method EuropeanUnionNames() returns (res: seq<string>)
      ensures res == Names(SortBy(Members(countriesList, false), NameOf))
    {
      var cs := EuropeanUnion(true);
      res := Names(cs);
    }

    /** `byCode`: the first entry whose code is the one asked for, or `None`
      * when there is none. */
    function ByCode(iso2code: string): (r: Option<Country>)
      reads this
      ensures r.None? <==> forall i :: 0 <= i < |countriesList| ==> countriesList[i].iso2code != iso2code
      ensures r.Some? ==>
                r.value.iso2code == iso2code &&
                exists i :: 0 <= i < |countriesList| && countriesList[i] == r.value &&
                            forall j :: 0 <= j < i ==> countriesList[j].iso2code != iso2code
    {
      FirstSpec(countriesList, CodeOf, iso2code);
      First(countriesList, CodeOf, iso2code)
    }

    /** `byName`: the first entry whose name is the one asked for, or `None`
      * when there is none. */
    function ByName(name: string): (r: Option<Country>)
      reads this
      ensures r.None? <==> forall i :: 0 <= i < |countriesList| ==> countriesList[i].name != name
      ensures r.Some? ==>
                r.value.name == name &&
                exists i :: 0 <= i < |countriesList| && countriesList[i] == r.value &&
                            forall j :: 0 <= j < i ==> countriesList[j].name != name
    {
      FirstSpec(countriesList, NameOf, name);
      First(countriesList, NameOf, name)
    }
  }

  /** The names listed by `EuropeanUnionNames` are in alphabetical order. */
  lemma NamesSorted(s: seq<Country>)
    ensures var r := Names(SortBy(Members(s, false), NameOf));
      forall i, j :: 0 <= i < j < |r| ==> !StrLt(r[j], r[i])
  {
    SortBySpec(Members(s, false), NameOf);
  }

  // ---------------------------------------------------------------- languages

  datatype Language = Language(name: string, abbreviation: string, population: int)

  function LanguageName(l: Language): string { l.name }
  function AbbreviationOf(l: Language): string { l.abbreviation }
  function Identity(s: string): string { s }

  function Abbreviations(ls: seq<Language>): (r: seq<string>)
    ensures |r| == |ls| && forall i :: 0 <= i < |r| ==> r[i] == ls[i].abbreviation
  {
    seq(|ls|, i requires 0 <= i < |ls| => ls[i].abbreviation)
  }

  /** The abbreviation listing is every abbreviation, once per language, in
    * order. */
  lemma AbbreviationsSorted(ls: seq<Language>)
    ensures var r := SortBy(Abbreviations(ls), Identity);
      && multiset(r) == multiset(Abbreviations(ls))
      && forall i, j :: 0 <= i < j < |r| ==> !StrLt(r[j], r[i])
  {
    SortBySpec(Abbreviations(ls), Identity);
  }

  /** `languages`: the class-level `languages_list`. */
  class Languages {
    var languagesList: seq<Language>

    constructor()
      ensures languagesList == []
    {
      languagesList := [];
    }

    method Add(name: string, abbreviation: string, population: int)
      modifies this
      ensures languagesList == old(languagesList) + [Language(name, abbreviation, population)]
    {
      languagesList := languagesList + [Language(name, abbreviation, population)];
    }

    /** `EuropeanUnionLanguages(sortByName)`. */
    function EuropeanUnionLanguages(sortByName: bool): (r: seq<Language>)
      reads this
      ensures multiset(r) == multiset(languagesList)
      ensures SortedBy(r, if sortByName then LanguageName else AbbreviationOf)
    {
      SortBySpec(languagesList, if sortByName then LanguageName else AbbreviationOf);
      SortBy(languagesList, if sortByName then LanguageName else AbbreviationOf)
    }

    /** `EuropeanUnionAbbreviations`: every abbreviation, once per
      * language, in alphabetical order. */
    function EuropeanUnionAbbreviations(): (r: seq<string>)
      reads this
      ensures multiset(r) == multiset(Abbreviations(languagesList))
      ensures forall i, j :: 0 <= i < j < |r| ==> !StrLt(r[j], r[i])
    {
      AbbreviationsSorted(languagesList);
      SortBy(Abbreviations(languagesList), Identity)
    }

    /** `byAbbreviation`: the first entry whose abbreviation is the one
      * asked for, or `None` when there is none. */
    function ByAbbreviation(abbreviation: string): (r: Option<Language>)
      reads this
      ensures r.None? <==> forall i :: 0 <= i < |languagesList| ==> languagesList[i].abbreviation != abbreviation
      ensures r.Some? ==>
                r.value.abbreviation == abbreviation &&
                exists i :: 0 <= i < |languagesList| && languagesList[i] == r.value &&
                            forall j :: 0 <= j < i ==> languagesList[j].abbreviation != abbreviation
    {
      FirstSpec(languagesList, AbbreviationOf, abbreviation);
      First(languagesList, AbbreviationOf, abbreviation)
    }

    /** `byName`: the first entry whose name is the one asked for, or `None`
      * when there is none. */
    function ByName(name: string): (r: Option<Language>)
      reads this
      ensures r.None? <==> forall i :: 0 <= i < |languagesList| ==> languagesList[i].name != name
      ensures r.Some? ==>
                r.value.name == name &&
                exists i :: 0 <= i < |languagesList| && languagesList[i] == r.value &&
                            forall j :: 0 <= j < i ==> languagesList[j].name != name
    {
      FirstSpec(languagesList, LanguageName, name);
      First(languagesList, LanguageName, name)
    }
  }
}
