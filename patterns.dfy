/**
 * PII detection (`src/wasm/src/quality/patterns.rs`): a column is flagged
 * when enough of its first 100 values match one of the PII patterns, checked
 * in a fixed order of sensitivity, with the column name as a secondary
 * signal. The regular expressions are not modelled: each is a matcher passed
 * in as a parameter.
 */
module Patterns {
  import opened Wrappers
  import opened Types
  import opened Text
  import Pii

  datatype PiiType = Email | Phone | Ssn | CreditCard | IpAddress | DateOfBirth | PostalCode

  /** `PiiType::as_str`. */
  function Label(t: PiiType): string {
    match t
    case Email => "email"
    case Phone => "phone number"
    case Ssn => "SSN"
    case CreditCard => "credit card"
    case IpAddress => "IP address"
    case DateOfBirth => "date of birth"
    case PostalCode => "postal code"
  }

  /** `PiiType::severity`. */
  function PiiSeverity(t: PiiType): Severity {
    match t
    case Ssn | CreditCard => Error
    case PostalCode => Info
    case Email | Phone | IpAddress | DateOfBirth => Warning
  }

  /** The eight regular expressions, as opaque tests on a trimmed value. */
  datatype Matchers = Matchers(
    email: string -> bool,
    phone: string -> bool,
    ssn: string -> bool,
    creditCard: string -> bool,
    ip: string -> bool,
    dob: string -> bool,
    usPostal: string -> bool,
    caPostal: string -> bool)

  /** The seven match counters. */
  datatype Tally = Tally(email: nat, phone: nat, ssn: nat, cc: nat, ip: nat, dob: nat, postal: nat)

  function One(b: bool): nat {
    if b then 1 else 0
  }

  function DigitCount(s: string): (r: nat)
    ensures r <= |s|
  {
    if s == [] then 0 else DigitCount(s[..|s| - 1]) + One(IsDigit(s[|s| - 1]))
  }

  /**
   * What one trimmed value adds to the counters: an SSN match counts only for
   * an 11-character value with 9 digits, a card match only above 13 characters,
   * a postal match for either the US or the Canadian pattern.
   */
  function Hits(t: string, m: Matchers): Tally {
    Tally(
      One(m.email(t)),
      One(m.phone(t)),
      One(|t| == 11 && DigitCount(t) == 9 && m.ssn(t)),
      One(|t| > 13 && m.creditCard(t)),
      One(m.ip(t)),
      One(m.dob(t)),
      One(m.usPostal(t) || m.caPostal(t)))
  }

  function Add(a: Tally, b: Tally): Tally {
    Tally(a.email + b.email, a.phone + b.phone, a.ssn + b.ssn, a.cc + b.cc,
          a.ip + b.ip, a.dob + b.dob, a.postal + b.postal)
  }

  /** The counters after scanning `sample`, each value trimmed first. */
  function TallyOf(sample: seq<string>, m: Matchers): Tally {
    if sample == [] then Tally(0, 0, 0, 0, 0, 0, 0)
    else Add(TallyOf(sample[..|sample| - 1], m), Hits(Trim(sample[|sample| - 1]), m))
  }

  /** Every counter counts values of the sample, so none exceeds its length. */
  lemma {:induction false} TallyBounded(sample: seq<string>, m: Matchers)
    ensures var c := TallyOf(sample, m);
      && c.email <= |sample| && c.phone <= |sample| && c.ssn <= |sample| && c.cc <= |sample|
      && c.ip <= |sample| && c.dob <= |sample| && c.postal <= |sample|
  {
    if sample != [] {
      TallyBounded(sample[..|sample| - 1], m);
    }
  }

  /** At most the first 100 values are inspected. */
  const MaxSample := 100

  function SampleSize(n: nat): (r: nat)
    ensures r <= n && r <= MaxSample
    ensures r == n || r == MaxSample
  {
    if n < MaxSample then n else MaxSample
  }

  /**
   * 30% of the sample, rounded down, but at least 1. The source computes
   * `(n as f64 * 0.3) as usize`, which for every sample size up to 100 equals
   * `3 * n / 10` in integers.
   */
  function Threshold(n: nat): (r: nat)
    ensures r >= 1
    ensures r == 1 || (10 * r <= 3 * n < 10 * (r + 1))
    ensures n > 0 ==> r <= n
  {
    var t := (3 * n) / 10;
    if t < 1 then 1 else t
  }

  /** The date-of-birth threshold is halved (but at least 1) when the column name suggests a birth date. */
  function DobThreshold(threshold: nat, hint: Option<PiiType>): (r: nat)
    requires threshold >= 1
    ensures 1 <= r <= threshold
    ensures hint != Some(DateOfBirth) ==> r == threshold
    ensures hint == Some(DateOfBirth) ==> r == 1 || 2 * r <= threshold < 2 * (r + 1)
  {
    if hint == Some(DateOfBirth) then
      var h := threshold / 2;
      if h < 1 then 1 else h
    else threshold
  }

  /** The decision after counting: content checks in order of sensitivity, then the name hint. */
  function Decide(c: Tally, threshold: nat, hint: Option<PiiType>): Option<PiiType>
    requires threshold >= 1
  {
    if c.ssn >= threshold then Some(Ssn)
    else if c.cc >= threshold then Some(CreditCard)
    else if c.email >= threshold then Some(Email)
    else if c.phone >= threshold then Some(Phone)
    else if c.ip >= threshold then Some(IpAddress)
    else if c.dob >= DobThreshold(threshold, hint) then Some(DateOfBirth)
    else if c.postal >= threshold && hint == Some(PostalCode) then Some(PostalCode)
    else hint
  }

  /** The order in which content checks are tried, most sensitive first. */
  function Priority(t: PiiType): nat {
    match t
    case Ssn => 0
    case CreditCard => 1
    case Email => 2
    case Phone => 3
    case IpAddress => 4
    case DateOfBirth => 5
    case PostalCode => 6
  }

  /** The content test for one type; postal codes also need the name hint. */
  predicate Fires(c: Tally, threshold: nat, hint: Option<PiiType>, t: PiiType)
    requires threshold >= 1
  {
    match t
    case Ssn => c.ssn >= threshold
    case CreditCard => c.cc >= threshold
    case Email => c.email >= threshold
    case Phone => c.phone >= threshold
    case IpAddress => c.ip >= threshold
    case DateOfBirth => c.dob >= DobThreshold(threshold, hint)
    case PostalCode => c.postal >= threshold && hint == Some(PostalCode)
  }

  /**
   * The decision is the most sensitive type whose content test fires; when
   * none fires it is the name hint, whatever that is.
   */
  lemma DecideIsFirstFiring(c: Tally, threshold: nat, hint: Option<PiiType>)
    requires threshold >= 1
    ensures var r := Decide(c, threshold, hint);
      (exists t :: Fires(c, threshold, hint, t)) ==>
        && r.Some? && Fires(c, threshold, hint, r.value)
        && forall u :: Priority(u) < Priority(r.value) ==> !Fires(c, threshold, hint, u)
    ensures (forall t :: !Fires(c, threshold, hint, t)) ==> Decide(c, threshold, hint) == hint
  {
    var r := Decide(c, threshold, hint);
    if exists t :: Fires(c, threshold, hint, t) {
      var t :| Fires(c, threshold, hint, t);
      assert r.Some?;
      forall u | Priority(u) < Priority(r.value)
        ensures !Fires(c, threshold, hint, u)
      {
        assert u.Ssn? || u.CreditCard? || u.Email? || u.Phone? || u.IpAddress? || u.DateOfBirth?;
      }
    } else {
      assert !Fires(c, threshold, hint, Ssn) && !Fires(c, threshold, hint, CreditCard);
      assert !Fires(c, threshold, hint, Email) && !Fires(c, threshold, hint, Phone);
      assert !Fires(c, threshold, hint, IpAddress) && !Fires(c, threshold, hint, DateOfBirth);
      assert !Fires(c, threshold, hint, PostalCode);
    }
  }

  /** Postal codes are never reported unless the column name points to an address. */
  lemma PostalNeedsHint(c: Tally, threshold: nat, hint: Option<PiiType>)
    requires threshold >= 1
    ensures Decide(c, threshold, hint) == Some(PostalCode) ==> hint == Some(PostalCode)
    ensures hint == Some(PostalCode) ==> Decide(c, threshold, hint).Some?
  {
  }

  /** Without a name hint, nothing is reported unless some content test fires. */
  lemma NoHintNoFiringNone(c: Tally, threshold: nat)
    requires threshold >= 1
    ensures Decide(c, threshold, None) == None <==> forall t :: !Fires(c, threshold, None, t)
  {
    DecideIsFirstFiring(c, threshold, None);
  }

  /** Each keyword group of the name heuristics. */
  predicate ContainsAny(s: string, words: seq<string>) {
    exists i :: 0 <= i < |words| && Contains(s, words[i])
  }

  const EmailWords: seq<string> := ["email", "e_mail", "e-mail"]
  const PhoneWords: seq<string> := ["phone", "mobile", "cell", "tel", "fax"]
  const SsnWords: seq<string> := ["ssn", "social_security", "socialsecurity", "social-security"]
  const IpWords: seq<string> := ["ip_address", "ipaddress", "ip_addr", "client_ip", "user_ip", "server_ip", "source_ip", "dest_ip", "remote_ip"]
  const AddressWords: seq<string> := ["address", "street", "zip", "postal", "postcode"]
  const BirthWords: seq<string> := ["dob", "birth", "birthdate", "date_of_birth", "dateofbirth"]
  const PersonNameWords: seq<string> := ["name", "first_name", "last_name", "firstname", "lastname", "fullname"]
  const NotPersonNameWords: seq<string> := ["file", "path", "table", "column", "host"]

  /**
   * `detect_pii_from_column_name`: keyword groups tried in order on the
   * lower-cased name (IP before address, since "ip_address" contains
   * "address"). A person-name column yields no type either.
   */
  function NameHint(name: string): (r: Option<PiiType>)
    ensures r != Some(CreditCard)
  {
    var lower := ToLower(name);
    if ContainsAny(lower, EmailWords) then Some(Email)
    else if ContainsAny(lower, PhoneWords) then Some(Phone)
    else if ContainsAny(lower, SsnWords) then Some(Ssn)
    else if ContainsAny(lower, IpWords) || lower == "ip" then Some(IpAddress)
    else if ContainsAny(lower, AddressWords) then Some(PostalCode)
    else if ContainsAny(lower, BirthWords) then Some(DateOfBirth)
    else if ContainsAny(lower, PersonNameWords) && !ContainsAny(lower, NotPersonNameWords) then None
    else None
  }

  function Hint(columnName: Option<string>): Option<PiiType> {
    match columnName
    case None => None
    case Some(n) => NameHint(n)
  }

  lemma LowerCharIdempotent(c: char)
    ensures LowerChar(LowerChar(c)) == LowerChar(c)
  {
  }

  /** The name heuristics ignore letter case. */
  lemma NameHintIgnoresCase(name: string)
    ensures NameHint(ToLower(name)) == NameHint(name)
  {
    var l := ToLower(name);
    forall i | 0 <= i < |l|
      ensures ToLower(l)[i] == l[i]
    {
      LowerCharIdempotent(name[i]);
    }
    assert ToLower(l) == l;
  }

  /** A group none of whose words can occur, each lacking a letter of `s`, does not fire. */
  lemma NoWordContained(s: string, words: seq<string>, letters: seq<char>)
    requires |letters| == |words|
    requires forall i :: 0 <= i < |words| ==> letters[i] in words[i] && letters[i] !in s
    ensures !ContainsAny(s, words)
  {
    forall i | 0 <= i < |words|
      ensures !Contains(s, words[i])
    {
      Pii.MissingCharNotContained(s, words[i], letters[i]);
    }
  }

  /** A group one of whose words occurs at offset `k` fires. */
  lemma WordContainedAt(s: string, words: seq<string>, i: nat, k: nat)
    requires i < |words| && Pii.OccursAt(s, words[i], k)
    ensures ContainsAny(s, words)
  {
    Pii.ContainsOccurs(s, words[i]);
  }

  /** The unit-test names are already lower case. */
  lemma TestNameIsLower(name: string)
    requires name in {"ip_address", "mobile", "ssn", "zip_code", "dob", "amount", "filename", "pathname"}
    ensures ToLower(name) == name
  {
    Pii.LowerFixed(name);
  }

  /**
   * "ip_address" contains "address" too, but the IP group is tried first,
   * so the name hints at an IP address and not at a postal code.
   */
  lemma IpAddressBeforeAddress(name: string)
    requires name == "ip_address"
    ensures ContainsAny(name, AddressWords)
    ensures NameHint(name) == Some(IpAddress)
  {
    TestNameIsLower(name);
    IpAddressMissesEarlier(name);
    IpAddressContainsBoth(name);
    IpGroupDecides(name);
  }

  /** A lower-case name that only the IP group matches among the first four hints at an IP address. */
  lemma IpGroupDecides(name: string)
    requires ToLower(name) == name
    requires !ContainsAny(name, EmailWords) && !ContainsAny(name, PhoneWords) && !ContainsAny(name, SsnWords)
    requires ContainsAny(name, IpWords)
    ensures NameHint(name) == Some(IpAddress)
  {
  }

  lemma IpAddressMissesEarlier(name: string)
    requires name == "ip_address"
    ensures !ContainsAny(name, EmailWords) && !ContainsAny(name, PhoneWords) && !ContainsAny(name, SsnWords)
  {
    NoWordContained(name, EmailWords, ['m', 'm', 'm']);
    NoWordContained(name, PhoneWords, ['h', 'm', 'c', 't', 'f']);
    NoWordContained(name, SsnWords, ['n', 'c', 'c', 'c']);
  }

  lemma IpAddressContainsBoth(name: string)
    requires name == "ip_address"
    ensures ContainsAny(name, IpWords) && ContainsAny(name, AddressWords)
  {
    assert name[0..10] == IpWords[0];
    WordContainedAt(name, IpWords, 0, 0);
    assert name[3..10] == AddressWords[0];
    WordContainedAt(name, AddressWords, 0, 3);
  }

  /** The unit-test names "mobile", "ssn", "zip_code" and "dob" and the groups they hint at. */
  lemma MobileHintsPhone(name: string)
    requires name == "mobile"
    ensures NameHint(name) == Some(Phone)
  {
    TestNameIsLower(name);
    MobileMatchesPhone(name);
  }

  lemma MobileMatchesPhone(name: string)
    requires name == "mobile"
    ensures !ContainsAny(name, EmailWords) && ContainsAny(name, PhoneWords)
  {
    NoWordContained(name, EmailWords, ['a', 'a', 'a']);
    assert name[0..6] == PhoneWords[1];
    WordContainedAt(name, PhoneWords, 1, 0);
  }

  lemma SsnHintsSsn(name: string)
    requires name == "ssn"
    ensures NameHint(name) == Some(Ssn)
  {
    TestNameIsLower(name);
    SsnMissesContact(name);
    SsnMatchesSsn(name);
  }

  lemma SsnMissesContact(name: string)
    requires name == "ssn"
    ensures !ContainsAny(name, EmailWords) && !ContainsAny(name, PhoneWords)
  {
    NoWordContained(name, EmailWords, ['e', 'e', 'e']);
    NoWordContained(name, PhoneWords, ['p', 'm', 'c', 't', 'f']);
  }

  lemma SsnMatchesSsn(name: string)
    requires name == "ssn"
    ensures ContainsAny(name, SsnWords)
  {
    assert name[0..3] == SsnWords[0];
    WordContainedAt(name, SsnWords, 0, 0);
  }

  lemma ZipCodeHintsPostal(name: string)
    requires name == "zip_code"
    ensures NameHint(name) == Some(PostalCode)
  {
    TestNameIsLower(name);
    ZipCodeMissesContact(name);
    ZipCodeMissesIds(name);
    ZipCodeMatchesAddress(name);
  }

  lemma ZipCodeMissesContact(name: string)
    requires name == "zip_code"
    ensures !ContainsAny(name, EmailWords) && !ContainsAny(name, PhoneWords)
  {
    NoWordContained(name, EmailWords, ['m', 'm', 'm']);
    NoWordContained(name, PhoneWords, ['h', 'm', 'l', 't', 'f']);
  }

  lemma ZipCodeMissesIds(name: string)
    requires name == "zip_code"
    ensures !ContainsAny(name, SsnWords) && !ContainsAny(name, IpWords)
  {
    NoWordContained(name, SsnWords, ['s', 's', 's', 's']);
    NoWordContained(name, IpWords, ['a', 'a', 'a', 'l', 'u', 's', 's', 's', 'r']);
  }

  lemma ZipCodeMatchesAddress(name: string)
    requires name == "zip_code"
    ensures ContainsAny(name, AddressWords)
  {
    assert name[0..3] == AddressWords[2];
    WordContainedAt(name, AddressWords, 2, 0);
  }

  lemma DobHintsBirth(name: string)
    requires name == "dob"
    ensures NameHint(name) == Some(DateOfBirth)
  {
    TestNameIsLower(name);
    DobMissesContact(name);
    DobMissesIds(name);
    DobMatchesBirth(name);
  }

  lemma DobMissesContact(name: string)
    requires name == "dob"
    ensures !ContainsAny(name, EmailWords) && !ContainsAny(name, PhoneWords)
  {
    NoWordContained(name, EmailWords, ['e', 'e', 'e']);
    NoWordContained(name, PhoneWords, ['p', 'm', 'c', 't', 'f']);
  }

  lemma DobMissesIds(name: string)
    requires name == "dob"
    ensures !ContainsAny(name, SsnWords) && !ContainsAny(name, IpWords)
  {
    NoWordContained(name, SsnWords, ['s', 's', 's', 's']);
    NoWordContained(name, IpWords, ['i', 'i', 'i', 'i', 'i', 'i', 'i', 'i', 'i']);
  }

  lemma DobMatchesBirth(name: string)
    requires name == "dob"
    ensures !ContainsAny(name, AddressWords) && ContainsAny(name, BirthWords)
  {
    NoWordContained(name, AddressWords, ['a', 's', 'z', 'p', 'p']);
    assert name[0..3] == BirthWords[0];
    WordContainedAt(name, BirthWords, 0, 0);
  }

  /** "amount" is in none of the groups, so it hints at nothing. */
  lemma AmountHintsNothing(name: string)
    requires name == "amount"
    ensures NameHint(name) == None
  {
    TestNameIsLower(name);
    AmountMissesContact(name);
    AmountMissesIds(name);
    AmountMissesPlaces(name);
  }

  lemma AmountMissesContact(name: string)
    requires name == "amount"
    ensures !ContainsAny(name, EmailWords) && !ContainsAny(name, PhoneWords)
  {
    NoWordContained(name, EmailWords, ['e', 'e', 'e']);
    NoWordContained(name, PhoneWords, ['p', 'b', 'c', 'e', 'f']);
  }

  lemma AmountMissesIds(name: string)
    requires name == "amount"
    ensures !ContainsAny(name, SsnWords) && !ContainsAny(name, IpWords)
  {
    NoWordContained(name, SsnWords, ['s', 's', 's', 's']);
    NoWordContained(name, IpWords, ['i', 'i', 'i', 'i', 'i', 'i', 'i', 'i', 'i']);
  }

  lemma AmountMissesPlaces(name: string)
    requires name == "amount"
    ensures !ContainsAny(name, AddressWords) && !ContainsAny(name, BirthWords)
  {
    NoWordContained(name, AddressWords, ['d', 's', 'z', 's', 's']);
    NoWordContained(name, BirthWords, ['d', 'b', 'b', 'b', 'b']);
  }

  /**
   * "filename" and "pathname" contain "name" but also "file" / "path", and
   * neither matches an earlier group, so they hint at nothing.
   */
  lemma FilenameHintsNothing(name: string)
    requires name == "filename"
    ensures NameHint(name) == None
  {
    TestNameIsLower(name);
    FilenameMissesContact(name);
    FilenameMissesIds(name);
    FilenameMissesPlaces(name);
  }

  /** The one letter-by-letter case: "email" does not occur in "filename". */
  lemma EmailNotInFilename(name: string)
    requires name == "filename"
    ensures !Contains(name, EmailWords[0])
  {
    Pii.ContainsOccurs(name, EmailWords[0]);
    forall k: nat
      ensures !Pii.OccursAt(name, EmailWords[0], k)
    {
      if k + 5 > |name| {
      } else if k == 3 {
        assert name[k..k + 5][1] == 'n';
      } else {
        assert name[k..k + 5][0] == name[k];
        assert k == 0 || k == 1 || k == 2;
      }
    }
  }

  lemma FilenameMissesContact(name: string)
    requires name == "filename"
    ensures !ContainsAny(name, EmailWords) && !ContainsAny(name, PhoneWords)
  {
    FilenameMissesEmail(name);
    NoWordContained(name, PhoneWords, ['p', 'o', 'c', 't', 'x']);
  }

  lemma FilenameMissesEmail(name: string)
    requires name == "filename"
    ensures !ContainsAny(name, EmailWords)
  {
    EmailNotInFilename(name);
    Pii.MissingCharNotContained(name, EmailWords[1], '_');
    Pii.MissingCharNotContained(name, EmailWords[2], '-');
  }

  lemma FilenameMissesIds(name: string)
    requires name == "filename"
    ensures !ContainsAny(name, SsnWords) && !ContainsAny(name, IpWords)
  {
    NoWordContained(name, SsnWords, ['s', 's', 's', 's']);
    NoWordContained(name, IpWords, ['p', 'p', 'p', 'p', 'p', 'p', 'p', 'p', 'p']);
  }

  lemma FilenameMissesPlaces(name: string)
    requires name == "filename"
    ensures !ContainsAny(name, AddressWords) && !ContainsAny(name, BirthWords)
  {
    NoWordContained(name, AddressWords, ['d', 's', 'z', 'p', 'p']);
    NoWordContained(name, BirthWords, ['d', 'b', 'b', 'b', 'b']);
  }

  lemma PathnameHintsNothing(name: string)
    requires name == "pathname"
    ensures NameHint(name) == None
  {
    TestNameIsLower(name);
    PathnameMissesContact(name);
    PathnameMissesIds(name);
    PathnameMissesPlaces(name);
  }

  lemma PathnameMissesContact(name: string)
    requires name == "pathname"
    ensures !ContainsAny(name, EmailWords) && !ContainsAny(name, PhoneWords)
  {
    NoWordContained(name, EmailWords, ['i', 'i', 'i']);
    NoWordContained(name, PhoneWords, ['o', 'o', 'c', 'l', 'f']);
  }

  lemma PathnameMissesIds(name: string)
    requires name == "pathname"
    ensures !ContainsAny(name, SsnWords) && !ContainsAny(name, IpWords)
  {
    NoWordContained(name, SsnWords, ['s', 's', 's', 's']);
    NoWordContained(name, IpWords, ['i', 'i', 'i', 'i', 'i', 'i', 'i', 'i', 'i']);
  }

  lemma PathnameMissesPlaces(name: string)
    requires name == "pathname"
    ensures !ContainsAny(name, AddressWords) && !ContainsAny(name, BirthWords)
  {
    NoWordContained(name, AddressWords, ['d', 's', 'z', 's', 's']);
    NoWordContained(name, BirthWords, ['d', 'b', 'b', 'b', 'b']);
  }

  /** The seven tests of the counting loop, applied to one trimmed value. */
  method MatchValue(trimmed: string, m: Matchers) returns (h: Tally)
    ensures h == Hits(trimmed, m)
  {
    h := Tally(0, 0, 0, 0, 0, 0, 0);
    if m.email(trimmed) {
      h := h.(email := 1);
    }
    if m.phone(trimmed) {
      h := h.(phone := 1);
    }
    if |trimmed| == 11 {
      var digits := DigitCount(trimmed);
      if digits == 9 && m.ssn(trimmed) {
        h := h.(ssn := 1);
      }
    }
    if |trimmed| > 13 && m.creditCard(trimmed) {
      h := h.(cc := 1);
    }
    if m.ip(trimmed) {
      h := h.(ip := 1);
    }
    if m.dob(trimmed) {
      h := h.(dob := 1);
    }
    if m.usPostal(trimmed) || m.caPostal(trimmed) {
      h := h.(postal := 1);
    }
  }

  lemma TallyStep(sample: seq<string>, i: nat, m: Matchers)
    requires i < |sample|
    ensures TallyOf(sample[..i + 1], m) == Add(TallyOf(sample[..i], m), Hits(Trim(sample[i]), m))
  {
    assert sample[..i + 1][..i] == sample[..i];
  }

  /** The counting loop of `detect_pii_pattern_with_column_name`: seven counters over the sample. */
  method CountMatches(sample: seq<string>, m: Matchers) returns (counts: Tally)
    ensures counts == TallyOf(sample, m)
  {
    counts := Tally(0, 0, 0, 0, 0, 0, 0);
    var i := 0;
    while i < |sample|
      invariant 0 <= i <= |sample|
      invariant counts == TallyOf(sample[..i], m)
    {
      var h := MatchValue(Trim(sample[i]), m);
      TallyStep(sample, i, m);
      counts := Add(counts, h);
      i := i + 1;
    }
    assert sample[..i] == sample;
  }

  /**
   * `detect_pii_pattern_with_column_name`: counts matches over the first 100
   * values and decides; an empty input is never PII, even with a telling name.
   */
  method DetectPii(values: seq<string>, columnName: Option<string>, m: Matchers) returns (r: Option<PiiType>)
    ensures values == [] ==> r == None
    ensures values != [] ==>
      var n := SampleSize(|values|);
      r == Decide(TallyOf(values[..n], m), Threshold(n), Hint(columnName))
  {
    if values == [] {
      return None;
    }
    var n := SampleSize(|values|);
    var counts := CountMatches(values[..n], m);
    var threshold := Threshold(n);
    var hint := Hint(columnName);
    if counts.ssn >= threshold {
      return Some(Ssn);
    }
    if counts.cc >= threshold {
      return Some(CreditCard);
    }
    if counts.email >= threshold {
      return Some(Email);
    }
    if counts.phone >= threshold {
      return Some(Phone);
    }
    if counts.ip >= threshold {
      return Some(IpAddress);
    }
    var dobThreshold := DobThreshold(threshold, hint);
    if counts.dob >= dobThreshold {
      return Some(DateOfBirth);
    }
    if counts.postal >= threshold && hint == Some(PostalCode) {
      return Some(PostalCode);
    }
    return hint;
  }

  /** `check_pii_issues`: one issue per detected type, its id made of the column and the label with `_` for spaces. */
  function CheckPiiIssues(pii: Option<PiiType>, columnName: string): (r: seq<QualityIssue>)
    ensures pii == None <==> r == []
    ensures pii.Some? ==>
      && |r| == 1 && r[0].severity == PiiSeverity(pii.value)
      && r[0].id == columnName + "_pii_" + ReplaceChar(Label(pii.value), ' ', '_')
  {
    match pii
    case None => []
    case Some(t) => [QualityIssue(columnName + "_pii_" + ReplaceChar(Label(t), ' ', '_'), PiiSeverity(t))]
  }

  /** The issue suffixes: distinct per type and free of spaces. */
  lemma IssueSuffixes(t: PiiType, u: PiiType)
    ensures ' ' !in ReplaceChar(Label(t), ' ', '_')
    ensures t != u ==> ReplaceChar(Label(t), ' ', '_') != ReplaceChar(Label(u), ' ', '_')
  {
    var a, b := ReplaceChar(Label(t), ' ', '_'), ReplaceChar(Label(u), ' ', '_');
    if t != u && |a| == |b| {
      assert a[0] != b[0];
    }
  }

  /**
   * The postal-code unit tests: four matching values are reported under an
   * address-like column name and not without one; a column whose values match
   * nothing takes the name hint.
   */
  lemma DecideExamples()
    ensures Decide(Tally(0, 0, 0, 0, 0, 0, 4), Threshold(4), Some(PostalCode)) == Some(PostalCode)
    ensures Decide(Tally(0, 0, 0, 0, 0, 0, 4), Threshold(4), None) == None
    ensures Decide(Tally(0, 0, 0, 0, 0, 0, 0), Threshold(3), Some(Email)) == Some(Email)
    ensures Decide(Tally(3, 0, 3, 0, 0, 0, 0), Threshold(3), None) == Some(Ssn)
  {
  }

  /** Identity numbers and cards are errors, postal codes information, the rest warnings. */
  lemma SeverityTable(t: PiiType)
    ensures PiiSeverity(t) == Error <==> t == Ssn || t == CreditCard
    ensures PiiSeverity(t) == Info <==> t == PostalCode
    ensures PiiSeverity(t) == Warning <==> Priority(t) in {2, 3, 4, 5}
  {
  }

  /** Thresholds for the unit-test sample sizes: 1 below four values, 30 for a full sample. */
  lemma ThresholdExamples()
    ensures Threshold(3) == 1 && Threshold(4) == 1 && Threshold(10) == 3 && Threshold(100) == 30
    ensures DobThreshold(30, Some(DateOfBirth)) == 15 && DobThreshold(1, Some(DateOfBirth)) == 1
  {
  }
}
