/** The team-name resolver: board abbreviation to display name. */
module TeamNames {

  /** The fixed abbreviation table; "SA" and "RSA" are synonyms. */
  const Table: map<string, string> := map[
    "IND" := "India",
    "AUS" := "Australia",
    "ENG" := "England",
    "PAK" := "Pakistan",
    "SA" := "South Africa",
    "RSA" := "South Africa",
    "NZ" := "New Zealand",
    "WI" := "West Indies",
    "SL" := "Sri Lanka",
    "BAN" := "Bangladesh",
    "AFG" := "Afghanistan",
    "ZIM" := "Zimbabwe",
    "IRE" := "Ireland",
    "SCO" := "Scotland",
    "NAM" := "Namibia",
    "NED" := "Netherlands",
    "NEP" := "Nepal",
    "USA" := "USA",
    "UAE" := "UAE",
    "OMAN" := "Oman",
    "ITA" := "Italy",
    "PNG" := "Papua New Guinea",
    "CAN" := "Canada",
    "HK" := "Hong Kong",
    "KEN" := "Kenya",
    "UGA" := "Uganda"
  ]

  /**
   * Resolves an abbreviation. A name differs from its code only when the code
   * is in the table; every other code, the empty string included, passes through.
   */
  function Expand(code: string): (name: string)
    ensures name != code ==> code in Table
    ensures code in Table ==> name == Table[code]
  {
    if code in Table then Table[code] else code
  }

  /** No display name is itself an abbreviation of a different team, so resolving twice changes nothing. */
  lemma ExpandIdempotent(code: string)
    ensures Expand(Expand(code)) == Expand(code)
  {
    if code in Table {
      var name := Table[code];
      if name in Table {
        assert name == "USA" || name == "UAE";
      }
    }
  }

  /** The only two abbreviations that share a display name are "SA" and "RSA". */
  lemma OnlySouthAfricaHasSynonyms(c1: string, c2: string)
    requires c1 in Table && c2 in Table && c1 != c2
    requires Table[c1] == Table[c2]
    ensures {c1, c2} == {"SA", "RSA"}
  {
    NameDeterminesCode(c1);
    NameDeterminesCode(c2);
  }

  /** The code a display name comes from, "SA" standing for both South African codes. */
  lemma NameDeterminesCode(c: string)
    requires c in Table
    ensures Table[c] == "South Africa" ==> c == "SA" || c == "RSA"
    ensures Table[c] != "South Africa" ==> Owner(Table[c]) == c
  {
  }

  function Owner(name: string): string
  {
    if name == "India" then "IND"
    else if name == "Australia" then "AUS"
    else if name == "England" then "ENG"
    else if name == "Pakistan" then "PAK"
    else if name == "New Zealand" then "NZ"
    else if name == "West Indies" then "WI"
    else if name == "Sri Lanka" then "SL"
    else if name == "Bangladesh" then "BAN"
    else if name == "Afghanistan" then "AFG"
    else if name == "Zimbabwe" then "ZIM"
    else if name == "Ireland" then "IRE"
    else if name == "Scotland" then "SCO"
    else if name == "Namibia" then "NAM"
    else if name == "Netherlands" then "NED"
    else if name == "Nepal" then "NEP"
    else if name == "USA" then "USA"
    else if name == "UAE" then "UAE"
    else if name == "Oman" then "OMAN"
    else if name == "Italy" then "ITA"
    else if name == "Papua New Guinea" then "PNG"
    else if name == "Canada" then "CAN"
    else if name == "Hong Kong" then "HK"
    else if name == "Kenya" then "KEN"
    else if name == "Uganda" then "UGA"
    else "SA"
  }

  /** Synonyms agree, self-named boards map to themselves, and unlisted codes pass through. */
  lemma ExpandExamples()
    ensures Expand("SA") == Expand("RSA") == "South Africa"
    ensures Expand("USA") == "USA" && Expand("UAE") == "UAE"
    ensures Expand("") == "" && Expand("XYZ") == "XYZ"
  {
  }
}
