/** Fixed configuration of the checker and the names it derives: the municipality
    allow-list, the public inspection link and the map file name. */
module Naming {
  import opened Values

  /** What the municipality lookup answers when it cannot place a point. */
  const Unknown: string := "Onbekend"

  /** Base of the public inspection link; the project number is appended to it. */
  const InzageBase: string := "https://omgevingsloketinzage.omgeving.vlaanderen.be/"

  const AllowedMunicipalities: seq<string> := [
    "Anzegem", "Avelgem", "Brakel", "Deinze", "Gavere",
    "Geraardsbergen", "Horebeke", "Kluisbergen", "Kruisem",
    "Lierde", "Maarkedal", "Nazareth-De Pinte", "Oudenaarde",
    "Ronse", "Waregem", "Wortegem-Petegem", "Zottegem", "Zulte", "Zwalm"
  ]

  /** `municipality in ALLOWED_MUNICIPALITIES`. The lookup's failure answer never passes. */
  predicate IsAllowed(municipality: string)
    ensures municipality == Unknown ==> !IsAllowed(municipality)
  {
    municipality in AllowedMunicipalities
  }

  /** `f"https://omgevingsloketinzage.omgeving.vlaanderen.be/{project_num}"`. */
  function InzageLink(projectNum: JValue): (link: string)
    ensures |link| >= |InzageBase| && link[..|InzageBase|] == InzageBase
  {
    InzageBase + Str(projectNum)
  }

  /** `s.replace('/', '-')`. */
  function ReplaceSlash(s: string): (r: string)
    ensures |r| == |s|
    ensures forall i :: 0 <= i < |s| ==> r[i] == (if s[i] == '/' then '-' else s[i])
  {
    if s == [] then [] else [if s[0] == '/' then '-' else s[0]] + ReplaceSlash(s[1..])
  }

  /** `s.replace(':', '')`. */
  function RemoveColon(s: string): (r: string)
    ensures |r| == |s| - multiset(s)[':']
    ensures forall c :: c in r <==> c in s && c != ':'
    ensures ':' !in s ==> r == s
  {
    if s == [] then []
    else
      assert s == [s[0]] + s[1..];
      if s[0] == ':' then RemoveColon(s[1..])
      else [s[0]] + RemoveColon(s[1..])
  }

  /** Removing colons works piece by piece: the characters that stay keep
      their order. */
  lemma {:induction false} RemoveColonAppend(a: string, b: string)
    ensures RemoveColon(a + b) == RemoveColon(a) + RemoveColon(b)
  {
    if a == [] {
      assert a + b == b;
    } else {
      assert (a + b)[0] == a[0];
      assert (a + b)[1..] == a[1..] + b;
      RemoveColonAppend(a[1..], b);
      if a[0] != ':' {
        assert [a[0]] + (RemoveColon(a[1..]) + RemoveColon(b)) == ([a[0]] + RemoveColon(a[1..])) + RemoveColon(b);
      }
    }
  }

  /** The file id of a match: slashes become dashes and colons are dropped, so
      the id is safe inside a path; an id that is already safe is kept as it is. */
  function FileId(id: string): (r: string)
    ensures '/' !in r && ':' !in r
    ensures '/' !in id && ':' !in id ==> r == id
    ensures |r| <= |id|
  {
    var replaced := ReplaceSlash(id);
    assert '/' !in id ==> replaced == id;
    RemoveColon(replaced)
  }

  /** Sanitising twice is sanitising once. */
  lemma FileIdIdempotent(id: string)
    ensures FileId(FileId(id)) == FileId(id)
  {
  }

  /** `f"match_{file_id}.html"`. */
  function MapFilename(id: string): string {
    "match_" + FileId(id) + ".html"
  }

  /** Two map file names are equal exactly when the sanitised ids are equal. */
  lemma MapFilenameDeterminesFileId(a: string, b: string)
    ensures MapFilename(a) == MapFilename(b) <==> FileId(a) == FileId(b)
  {
    if MapFilename(a) == MapFilename(b) {
      var fa, fb := FileId(a), FileId(b);
      assert |fa| == |fb|;
      assert fa == MapFilename(a)[6..6 + |fa|];
      assert fb == MapFilename(b)[6..6 + |fb|];
    }
  }

  /** Sanitising is not injective: the ids "A/1" and "A-1" name the same map file,
      so the map of one project can overwrite that of another. */
  lemma DistinctIdsShareMapFile()
    ensures MapFilename("A/1") == MapFilename("A-1")
  {
    assert ReplaceSlash("A/1") == "A-1";
    assert ':' !in "A-1";
    assert FileId("A/1") == "A-1" == FileId("A-1");
  }

  /** The file name expected for the permit `P001_Match` in the repository's test
      script: the id has nothing to sanitise. */
  lemma MapFilenameOfTestPermit()
    ensures MapFilename("P001_Match") == "match_" + "P001_Match" + ".html"
  {
    var id := "P001_Match";
    assert '/' !in id && ':' !in id;
  }
}
