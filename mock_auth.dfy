/** MockAuthGuard: lets a request through only when its `x-user-id` header
    holds a version-4 UUID in the textual form of RFC 9562 section 5.4, and
    then records that id as the request's user. */
module MockAuth {
  import opened Errors

  /** A character class as a list of inclusive ranges: `[0-9a-f]` is
      [('0', '9'), ('a', 'f')] and a literal character c is [(c, c)]. */
  type Ranges = seq<(char, char)>

  /** One piece of an anchored pattern: a class repeated exactly count times. */
  datatype Term = Term(ranges: Ranges, count: nat)

  predicate InRanges(c: char, ranges: Ranges)
  {
    exists k :: 0 <= k < |ranges| && ranges[k].0 <= c <= ranges[k].1
  }

  function AsciiLower(c: char): char
  {
    if 'A' <= c <= 'Z' then (c as int + 32) as char else c
  }

  function AsciiUpper(c: char): char
  {
    if 'a' <= c <= 'z' then (c as int - 32) as char else c
  }

  /** How a class matches under the `i` flag: c matches when it or the other
      case of it lies in the class. Only ASCII letters have another case here;
      the classes of the guard hold ASCII characters only. */
  predicate ClassMatches(c: char, ranges: Ranges): (b: bool)
    ensures InRanges(c, ranges) ==> b
    ensures 'a' <= c <= 'z' ==> (b <==> InRanges(c, ranges) || InRanges((c as int - 32) as char, ranges))
    ensures 'A' <= c <= 'Z' ==> (b <==> InRanges(c, ranges) || InRanges((c as int + 32) as char, ranges))
    ensures !('a' <= c <= 'z') && !('A' <= c <= 'Z') ==> (b <==> InRanges(c, ranges))
  {
    InRanges(AsciiLower(c), ranges) || InRanges(AsciiUpper(c), ranges)
  }

  /** An anchored match `^…$` of a pattern without alternatives: every term
      takes exactly its count of characters and nothing is left over. */
  predicate Matches(p: seq<Term>, s: string): (b: bool)
    ensures b ==> |s| == |Expand(p)|
  {
    if p == [] then s == []
    else
      && |s| >= p[0].count
      && (forall i :: 0 <= i < p[0].count ==> ClassMatches(s[i], p[0].ranges))
      && Matches(p[1..], s[p[0].count..])
  }

  /** The class each position of a matching string is drawn from. */
  function Expand(p: seq<Term>): seq<Ranges>
  {
    if p == [] then [] else seq(p[0].count, _ => p[0].ranges) + Expand(p[1..])
  }

  /** A string matches a pattern exactly when it is as long as the pattern's
      expansion and each of its characters matches the class at its position. */
  lemma {:induction false} MatchesExpand(p: seq<Term>, s: string)
    ensures Matches(p, s) <==>
      |s| == |Expand(p)| && forall i :: 0 <= i < |s| ==> ClassMatches(s[i], Expand(p)[i])
  {
    if p != [] {
      var n := p[0].count;
      assert Expand(p) == seq(n, _ => p[0].ranges) + Expand(p[1..]);
      if |s| >= n {
        MatchesExpand(p[1..], s[n..]);
        if |s| == n + |Expand(p[1..])| {
          SplitPositions(s, n, p[0].ranges, Expand(p[1..]));
        }
      } else {
        MatchesExpand(p[1..], []);
      }
    }
  }

  /** Matching s position by position against a run of n copies of one class
      followed by e is matching its first n characters against that class and
      the rest against e. */
  lemma SplitPositions(s: string, n: nat, head: Ranges, e: seq<Ranges>)
    requires |s| == n + |e|
    ensures (forall i :: 0 <= i < |s| ==> ClassMatches(s[i], (seq(n, _ => head) + e)[i])) <==>
      && (forall i :: 0 <= i < n ==> ClassMatches(s[i], head))
      && (forall i :: 0 <= i < |e| ==> ClassMatches(s[n..][i], e[i]))
  {
    var c := seq(n, _ => head) + e;
    if forall i :: 0 <= i < |s| ==> ClassMatches(s[i], c[i]) {
      forall i | 0 <= i < |e| ensures ClassMatches(s[n..][i], e[i]) {
        assert s[n..][i] == s[n + i] && c[n + i] == e[i];
      }
    }
    if (forall i :: 0 <= i < n ==> ClassMatches(s[i], head))
       && (forall i :: 0 <= i < |e| ==> ClassMatches(s[n..][i], e[i])) {
      forall i | 0 <= i < |s| ensures ClassMatches(s[i], c[i]) {
        if i >= n {
          assert s[i] == s[n..][i - n] && c[i] == e[i - n];
        }
      }
    }
  }

  /** Matching ignores the case of ASCII letters: a string matches exactly
      when its lower-cased form does. */
  lemma MatchesIgnoresCase(p: seq<Term>, s: string)
    ensures Matches(p, s) <==> Matches(p, LowerCase(s))
  {
    MatchesExpand(p, s);
    MatchesExpand(p, LowerCase(s));
    var e := Expand(p);
    if |s| == |e| {
      forall i | 0 <= i < |s| ensures ClassMatches(s[i], e[i]) <==> ClassMatches(LowerCase(s)[i], e[i]) {
        CaseOfLower(s[i]);
      }
    }
  }

  lemma CaseOfLower(c: char)
    ensures AsciiLower(AsciiLower(c)) == AsciiLower(c) && AsciiUpper(AsciiLower(c)) == AsciiUpper(c)
  {
  }

  /** The ASCII lower-cased form of s. */
  function LowerCase(s: string): (r: string)
    ensures |r| == |s| && forall i :: 0 <= i < |s| ==> r[i] == AsciiLower(s[i])
  {
    seq(|s|, i requires 0 <= i < |s| => AsciiLower(s[i]))
  }

  const HexClass: Ranges := [('0', '9'), ('a', 'f')]
  const DashClass: Ranges := [('-', '-')]
  const VersionClass: Ranges := [('4', '4')]
  const VariantClass: Ranges := [('8', '9'), ('a', 'b')]

  /** `/^[0-9a-f]{8}-[0-9a-f]{4}-4[0-9a-f]{3}-[89ab][0-9a-f]{3}-[0-9a-f]{12}$/i` */
  const UuidV4Pattern: seq<Term> := [
    Term(HexClass, 8), Term(DashClass, 1),
    Term(HexClass, 4), Term(DashClass, 1),
    Term(VersionClass, 1), Term(HexClass, 3), Term(DashClass, 1),
    Term(VariantClass, 1), Term(HexClass, 3), Term(DashClass, 1),
    Term(HexClass, 12)]

  predicate IsUuidV4(s: string): (b: bool)
    ensures b ==> |s| == 36
  {
    ExpandUuidV4();
    Matches(UuidV4Pattern, s)
  }

  predicate IsHexDigit(c: char)
  {
    '0' <= c <= '9' || 'a' <= c <= 'f' || 'A' <= c <= 'F'
  }

  /** The variant digits of RFC 9562: the two high bits of the octet are 10. */
  predicate IsVariantDigit(c: char)
  {
    c == '8' || c == '9' || c == 'a' || c == 'b' || c == 'A' || c == 'B'
  }

  predicate IsDashPosition(i: int)
  {
    i == 8 || i == 13 || i == 18 || i == 23
  }

  /** The class the pattern puts at position i of a 36-character string. */
  function ClassAt(i: int): Ranges
  {
    if IsDashPosition(i) then DashClass
    else if i == 14 then VersionClass
    else if i == 19 then VariantClass
    else HexClass
  }

  /** offs lists where each term of p starts, and where the last one ends,
      and f gives at each position the class of the term covering it. */
  ghost predicate Covers(p: seq<Term>, offs: seq<nat>, f: int -> Ranges)
  {
    && |offs| == |p| + 1
    && forall k :: 0 <= k < |p| ==>
         && offs[k + 1] == offs[k] + p[k].count
         && forall i :: offs[k] <= i < offs[k + 1] ==> f(i) == p[k].ranges
  }

  /** Under such a covering, p from term k on expands to f from offs[k] on. */
  lemma {:induction false} ExpandCovered(p: seq<Term>, offs: seq<nat>, f: int -> Ranges, k: nat)
    requires Covers(p, offs, f) && k <= |p|
    ensures offs[k] + |Expand(p[k..])| == offs[|p|]
    ensures forall i :: offs[k] <= i < offs[|p|] ==> f(i) == Expand(p[k..])[i - offs[k]]
    decreases |p| - k
  {
    if k == |p| {
      assert p[k..] == [];
    } else {
      ExpandCovered(p, offs, f, k + 1);
      assert p[k..][1..] == p[k + 1..];
      var e := Expand(p[k..]);
      var rest := Expand(p[k + 1..]);
      assert e == seq(p[k].count, _ => p[k].ranges) + rest;
      forall i | offs[k] <= i < offs[|p|] ensures f(i) == e[i - offs[k]] {
        if i >= offs[k + 1] {
          assert e[i - offs[k]] == rest[i - offs[k + 1]];
        }
      }
    }
  }

  /** Where each term of the pattern starts, and where the last one ends. */
  const Offsets: seq<nat> := [0, 8, 9, 13, 14, 15, 18, 19, 20, 23, 24, 36]

  /** Term k covers the positions from Offsets[k] up to Offsets[k + 1], and
      its class is the one ClassAt puts there. */
  lemma TermClasses(k: nat)
    requires k < |UuidV4Pattern|
    ensures |Offsets| == |UuidV4Pattern| + 1
    ensures Offsets[k + 1] == Offsets[k] + UuidV4Pattern[k].count
    ensures forall i :: Offsets[k] <= i < Offsets[k + 1] ==> ClassAt(i) == UuidV4Pattern[k].ranges
  {
  }

  /** The pattern's expansion: 36 positions, with the class ClassAt(i) at position i. */
  lemma ExpandUuidV4()
    ensures |Expand(UuidV4Pattern)| == 36
    ensures forall i :: 0 <= i < 36 ==> Expand(UuidV4Pattern)[i] == ClassAt(i)
  {
    forall k | 0 <= k < |UuidV4Pattern|
      ensures Offsets[k + 1] == Offsets[k] + UuidV4Pattern[k].count
      ensures forall i :: Offsets[k] <= i < Offsets[k + 1] ==> ClassAt(i) == UuidV4Pattern[k].ranges
    {
      TermClasses(k);
    }
    assert Covers(UuidV4Pattern, Offsets, ClassAt);
    ExpandCovered(UuidV4Pattern, Offsets, ClassAt, 0);
    assert UuidV4Pattern[0..] == UuidV4Pattern;
  }

  lemma HexClassMatches(c: char)
    ensures ClassMatches(c, HexClass) <==> IsHexDigit(c)
  {
    if IsHexDigit(c) {
      if '0' <= c <= '9' {
        assert HexClass[0].0 <= AsciiLower(c) <= HexClass[0].1;
      } else {
        assert HexClass[1].0 <= AsciiLower(c) <= HexClass[1].1;
      }
    }
  }

  lemma VariantClassMatches(c: char)
    ensures ClassMatches(c, VariantClass) <==> IsVariantDigit(c)
  {
    if IsVariantDigit(c) {
      if c == '8' || c == '9' {
        assert VariantClass[0].0 <= AsciiLower(c) <= VariantClass[0].1;
      } else {
        assert VariantClass[1].0 <= AsciiLower(c) <= VariantClass[1].1;
      }
    }
  }

  lemma SingleClassMatches(c: char, d: char)
    requires d == '-' || d == '4'
    ensures ClassMatches(c, [(d, d)]) <==> c == d
  {
    if c == d {
      assert [(d, d)][0].0 <= AsciiLower(c) <= [(d, d)][0].1;
    }
  }

  /** What the regular expression accepts, position by position: 36
      characters, dashes at 8, 13, 18 and 23, the version digit 4 at 14, a
      variant digit (8, 9, a or b, in either case) at 19, and a hexadecimal
      digit in either case everywhere else. */
  lemma {:induction false} UuidV4Positions(s: string)
    ensures IsUuidV4(s) <==>
      && |s| == 36
      && (forall i :: 0 <= i < 36 && IsDashPosition(i) ==> s[i] == '-')
      && s[14] == '4'
      && IsVariantDigit(s[19])
      && (forall i :: 0 <= i < 36 && !IsDashPosition(i) && i != 14 && i != 19 ==> IsHexDigit(s[i]))
  {
    MatchesExpand(UuidV4Pattern, s);
    ExpandUuidV4();
    if |s| == 36 {
      forall i | 0 <= i < 36
        ensures ClassMatches(s[i], ClassAt(i)) <==>
          if IsDashPosition(i) then s[i] == '-'
          else if i == 14 then s[i] == '4'
          else if i == 19 then IsVariantDigit(s[i])
          else IsHexDigit(s[i])
      {
        HexClassMatches(s[i]);
        VariantClassMatches(s[i]);
        SingleClassMatches(s[i], '-');
        SingleClassMatches(s[i], '4');
      }
    }
  }

  /** Every accepted id has the version and variant of a version-4 UUID. */
  lemma UuidV4VersionAndVariant(s: string)
    requires IsUuidV4(s)
    ensures |s| == 36 && s[14] == '4' && IsVariantDigit(s[19])
  {
    UuidV4Positions(s);
  }

  /** The `i` flag: a string is accepted exactly when its lower-cased form is. */
  lemma UuidV4IgnoresCase(s: string)
    ensures IsUuidV4(s) <==> IsUuidV4(LowerCase(s))
  {
    MatchesIgnoresCase(UuidV4Pattern, s);
  }

  /** The empty string is no UUID. */
  lemma EmptyIsNotUuidV4()
    ensures !IsUuidV4([])
  {
    assert UuidV4Pattern[0].count == 8;
  }

  /** A well-formed id of version 1 instead of 4 is refused. */
  lemma VersionOneRefused()
    ensures !IsUuidV4("123e4567-e89b-12d3-a456-426614174000")
  {
    if IsUuidV4("123e4567-e89b-12d3-a456-426614174000") {
      UuidV4VersionAndVariant("123e4567-e89b-12d3-a456-426614174000");
    }
  }

  const HeaderName := "x-user-id"
  const HeaderRequired := "x-user-id header is required"
  const InvalidFormat := "Invalid user ID format. Please use a valid UUID."

  /** What the guard stores as `request.user`. */
  datatype User = User(id: string)

  /** The decision of `canActivate` on the request's headers: the user it lets
      in, or why it refuses. */
  function Authenticate(headers: map<string, string>): (r: Result<User>)
    ensures r.Ok? <==> HeaderName in headers && IsUuidV4(headers[HeaderName])
    ensures r.Ok? ==> r.value == User(headers[HeaderName])
    ensures (HeaderName !in headers || headers[HeaderName] == []) ==> r == Err(Unauthorized(HeaderRequired))
    ensures (HeaderName in headers && headers[HeaderName] != [] && !IsUuidV4(headers[HeaderName])) ==>
      r == Err(Unauthorized(InvalidFormat))
  {
    EmptyIsNotUuidV4();
    if HeaderName !in headers || headers[HeaderName] == [] then Err(Unauthorized(HeaderRequired))
    else if !IsUuidV4(headers[HeaderName]) then Err(Unauthorized(InvalidFormat))
    else Ok(User(headers[HeaderName]))
  }

  /** The part of an HTTP request the guard reads and writes. */
  class Request {
    var headers: map<string, string>
    var user: Option<User>

    constructor (headers: map<string, string>)
      ensures this.headers == headers && user == None
    {
      this.headers := headers;
      user := None;
    }
  }

  /** `canActivate(context)`: refuses the request, or sets its user and lets it through. */
  method CanActivate(request: Request) returns (r: Result<bool>)
    modifies request
    ensures request.headers == old(request.headers)
    ensures Authenticate(old(request.headers)).Err? ==>
      r == Err(Authenticate(old(request.headers)).error) && request.user == old(request.user)
    ensures Authenticate(old(request.headers)).Ok? ==>
      r == Ok(true) && request.user == Some(Authenticate(old(request.headers)).value)
  {
    var auth := Authenticate(request.headers);
    if auth.Err? {
      r := Err(auth.error);
      return;
    }
    request.user := Some(auth.value);
    r := Ok(true);
  }
}
