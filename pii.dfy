/**
 * The column-name heuristic of the export (`is_potential_pii` in
 * `src/wasm/src/export/json.rs`): a column may hold personal data when its
 * lower-cased name contains one of a fixed list of keywords.
 */
module Pii {
  import opened Text

  /** The keywords of `is_potential_pii`, in their order. */
  const PiiKeywords: seq<string> := [
    "email", "phone", "ssn", "social_security", "address", "name",
    "first_name", "last_name", "firstname", "lastname", "dob",
    "date_of_birth", "birth", "passport", "license", "credit_card",
    "card_number", "zip", "postal", "ip_address", "ip"]

  /** Whether `s` contains one of `keywords` (`iter().any(|kw| s.contains(kw))`). */
  function AnyContained(s: string, keywords: seq<string>): (r: bool)
    ensures r <==> exists i :: 0 <= i < |keywords| && Contains(s, keywords[i])
  {
    if keywords == [] then false
    else
      var rest := AnyContained(s, keywords[1..]);
      assert forall i :: 1 <= i < |keywords| ==> keywords[i] == keywords[1..][i - 1];
      Contains(s, keywords[0]) || rest
  }

  /** `is_potential_pii`: the lower-cased name contains one of the PII keywords. */
  function IsPotentialPii(name: string): (r: bool)
    ensures r <==> exists i :: 0 <= i < |PiiKeywords| && Contains(ToLower(name), PiiKeywords[i])
  {
    AnyContained(ToLower(name), PiiKeywords)
  }

  /** `sub` occurs in `s` at some offset. */
  ghost predicate OccursAt(s: string, sub: string, k: nat) {
    k + |sub| <= |s| && s[k..k + |sub|] == sub
  }

  /** `contains` means an occurrence at some offset. */
  lemma {:induction false} ContainsOccurs(s: string, sub: string)
    ensures Contains(s, sub) <==> exists k: nat :: OccursAt(s, sub, k)
    decreases |s|
  {
    if Contains(s, sub) {
      if StartsWith(s, sub) {
        assert OccursAt(s, sub, 0);
      } else {
        ContainsOccurs(s[1..], sub);
        var k: nat :| OccursAt(s[1..], sub, k);
        assert s[1..][k..k + |sub|] == s[k + 1..k + 1 + |sub|];
        assert OccursAt(s, sub, k + 1);
      }
    }
    if exists k: nat :: OccursAt(s, sub, k) {
      var k: nat :| OccursAt(s, sub, k);
      if k == 0 {
        assert StartsWith(s, sub);
      } else {
        assert s[1..][k - 1..k - 1 + |sub|] == s[k..k + |sub|];
        assert OccursAt(s[1..], sub, k - 1);
        ContainsOccurs(s[1..], sub);
      }
    }
  }

  /** A string containing `t` contains everything `t` contains. */
  lemma ContainsTransitive(s: string, t: string, u: string)
    requires Contains(s, t) && Contains(t, u)
    ensures Contains(s, u)
  {
    ContainsOccurs(s, t);
    ContainsOccurs(t, u);
    ContainsOccurs(s, u);
    var k: nat :| OccursAt(s, t, k);
    var m: nat :| OccursAt(t, u, m);
    forall j | 0 <= j < |u|
      ensures s[k + m + j] == u[j]
    {
      assert s[k..k + |t|][m + j] == t[m + j];
      assert t[m..m + |u|][j] == u[j];
    }
    assert s[k + m..k + m + |u|] == u;
    assert OccursAt(s, u, k + m);
  }

  /** Lower-casing twice is lower-casing once. */
  lemma ToLowerIdempotent(s: string)
    ensures ToLower(ToLower(s)) == ToLower(s)
  {
    var l := ToLower(s);
    assert forall i :: 0 <= i < |l| ==> LowerChar(l[i]) == l[i];
  }

  /** The PII flag ignores letter case. */
  lemma PiiIgnoresCase(name: string)
    ensures IsPotentialPii(name) == IsPotentialPii(ToLower(name))
  {
    ToLowerIdempotent(name);
  }

  /**
   * Six of the keywords are redundant: each contains a shorter keyword
   * ("name", "birth" or "ip"), so the flag is decided by the fifteen others.
   */
  const CoreKeywords: seq<string> := [
    "email", "phone", "ssn", "social_security", "address", "name", "dob",
    "birth", "passport", "license", "credit_card", "card_number", "zip", "postal", "ip"]

  /** For each keyword, the index of a core keyword it contains. */
  const CoreOf: seq<nat> := [0, 1, 2, 3, 4, 5, 5, 5, 5, 5, 6, 7, 7, 8, 9, 10, 11, 12, 13, 14, 14]

  /** For each core keyword, its index among all keywords. */
  const ListedAt: seq<nat> := [0, 1, 2, 3, 4, 5, 10, 12, 13, 14, 15, 16, 17, 18, 20]

  /** Where in keyword `i` its core keyword starts. */
  const CoreOffset: seq<nat> := [0, 0, 0, 0, 0, 0, 6, 5, 5, 4, 0, 8, 0, 0, 0, 0, 0, 0, 0, 0, 0]

  lemma CoreCovers(i: nat)
    requires i < |PiiKeywords|
    ensures CoreOf[i] < |CoreKeywords| && OccursAt(PiiKeywords[i], CoreKeywords[CoreOf[i]], CoreOffset[i])
  {
    if i in {6, 7, 8, 9, 11, 19} {
      LongerKeyword(i);
    } else {
      SameKeyword(i);
    }
  }

  /** The keywords that are core keywords themselves. */
  lemma SameKeyword(i: nat)
    requires i < |PiiKeywords| && i !in {6, 7, 8, 9, 11, 19}
    ensures CoreOf[i] < |CoreKeywords| && OccursAt(PiiKeywords[i], CoreKeywords[CoreOf[i]], CoreOffset[i])
  {
    var kw := PiiKeywords[i];
    assert kw == CoreKeywords[CoreOf[i]] && CoreOffset[i] == 0;
    assert kw[0..|kw|] == kw;
  }

  /** The six keywords that contain a shorter one. */
  lemma LongerKeyword(i: nat)
    requires i in {6, 7, 8, 9, 11, 19}
    ensures CoreOf[i] < |CoreKeywords| && OccursAt(PiiKeywords[i], CoreKeywords[CoreOf[i]], CoreOffset[i])
  {
    if i == 6 {
      OccursBetween("first_", "name", "");
    } else if i == 7 {
      OccursBetween("last_", "name", "");
    } else if i == 8 {
      OccursBetween("first", "name", "");
    } else if i == 9 {
      OccursBetween("last", "name", "");
    } else if i == 11 {
      OccursBetween("date_of_", "birth", "");
    } else {
      OccursBetween("", "ip", "_address");
    }
  }

  lemma OccursBetween(before: string, sub: string, after: string)
    ensures OccursAt(before + sub + after, sub, |before|)
  {
    assert (before + sub + after)[|before|..|before| + |sub|] == sub;
  }

  lemma CoreListed(j: nat)
    requires j < |CoreKeywords|
    ensures ListedAt[j] < |PiiKeywords| && PiiKeywords[ListedAt[j]] == CoreKeywords[j]
  {
  }

  lemma {:induction false} CoreKeywordsDecide(name: string)
    ensures IsPotentialPii(name) <==> AnyContained(ToLower(name), CoreKeywords)
  {
    var s := ToLower(name);
    if IsPotentialPii(name) {
      var i :| 0 <= i < |PiiKeywords| && Contains(s, PiiKeywords[i]);
      CoreCovers(i);
      ContainsOccurs(PiiKeywords[i], CoreKeywords[CoreOf[i]]);
      ContainsTransitive(s, PiiKeywords[i], CoreKeywords[CoreOf[i]]);
    }
    if AnyContained(s, CoreKeywords) {
      var j :| 0 <= j < |CoreKeywords| && Contains(s, CoreKeywords[j]);
      CoreListed(j);
    }
  }

  /** A character of `sub` that `s` lacks rules out an occurrence. */
  lemma {:induction false} MissingCharNotContained(s: string, sub: string, c: char)
    requires c in sub && c !in s
    ensures !Contains(s, sub)
    decreases |s|
  {
    if |sub| <= |s| {
      assert c in s[..|sub|] ==> c in s;
    }
    if |s| > 0 {
      MissingCharNotContained(s[1..], sub, c);
    }
  }

  /** A name without upper-case letters is its own lower-case form. */
  lemma LowerFixed(s: string)
    requires forall i :: 0 <= i < |s| ==> !('A' <= s[i] <= 'Z')
    ensures ToLower(s) == s
  {
  }

  /** An occurrence of keyword `i` at offset `k` of the lower-cased name flags it. */
  lemma FlaggedAt(name: string, i: nat, k: nat)
    requires i < |PiiKeywords| && OccursAt(ToLower(name), PiiKeywords[i], k)
    ensures IsPotentialPii(name)
  {
    ContainsOccurs(ToLower(name), PiiKeywords[i]);
  }

  /** The unit-test names that are flagged: a plain and a prefixed e-mail, and a mixed-case first name. */
  lemma EmailIsPii(name: string)
    requires name == "email"
    ensures IsPotentialPii(name)
  {
    LowerFixed(name);
    assert name[0..5] == PiiKeywords[0];
    FlaggedAt(name, 0, 0);
  }

  lemma UserEmailIsPii(name: string)
    requires name == "user_email"
    ensures IsPotentialPii(name)
  {
    LowerFixed(name);
    assert name[5..10] == PiiKeywords[0];
    FlaggedAt(name, 0, 5);
  }

  lemma FirstNameIsPii(name: string)
    requires name == "FirstName"
    ensures IsPotentialPii(name)
  {
    var l := ToLower(name);
    assert l[5..9] == PiiKeywords[5];
    FlaggedAt(name, 5, 5);
  }

  /** Letters of which every keyword has one. */
  const KeyLetters: set<char> := {'b', 'c', 'd', 'e', 'f', 'l', 'p', 's', 'z'}

  /** For each keyword, one of its letters among `KeyLetters`. */
  const KeyLetterOf: seq<char> :=
    ['e', 'p', 's', 's', 'd', 'e', 'f', 'l', 'f', 'l', 'd', 'd', 'b', 'p', 'l', 'c', 'c', 'z', 'p', 'p', 'p']

  lemma KeyLetterOfKeywords()
    ensures |KeyLetterOf| == |PiiKeywords|
    ensures forall i :: 0 <= i < |PiiKeywords| ==> KeyLetterOf[i] in PiiKeywords[i] && KeyLetterOf[i] in KeyLetters
  {
  }

  /** A name whose lower-case form has none of `KeyLetters` is never flagged. */
  lemma NoKeyLetterNoPii(name: string)
    requires forall i :: 0 <= i < |name| ==> LowerChar(name[i]) !in KeyLetters
    ensures !IsPotentialPii(name)
  {
    var l := ToLower(name);
    KeyLetterOfKeywords();
    forall i | 0 <= i < |PiiKeywords|
      ensures !Contains(l, PiiKeywords[i])
    {
      MissingCharNotContained(l, PiiKeywords[i], KeyLetterOf[i]);
    }
  }

  /** The unit-test names that are not flagged. */
  lemma AmountIsNotPii(name: string)
    requires name == "amount"
    ensures !IsPotentialPii(name)
  {
    NoKeyLetterNoPii(name);
  }

  lemma QuantityIsNotPii(name: string)
    requires name == "quantity"
    ensures !IsPotentialPii(name)
  {
    NoKeyLetterNoPii(name);
  }

  /** The "ip" keyword makes any name with the letters "ip" in a row look like PII. */
  lemma DescriptionIsPii(name: string)
    requires name == "description"
    ensures IsPotentialPii(name)
  {
    LowerFixed(name);
    assert PiiKeywords[20] == "ip";
    assert name[5] == 'i' && name[6] == 'p';
    assert name[5..7] == PiiKeywords[20];
    FlaggedAt(name, 20, 5);
  }
}
