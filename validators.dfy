/**
 * The server-side model validators of server/models.py: the `project_type`
 * and `email` column validators and the write-only `password` property.
 * A validator either returns the value it was given or raises; a raise is a
 * `Failure` carrying the exception class and its message.
 */
module Validators {
  import opened Wrappers
  import Sequences

  /** The Python exceptions the validators raise, with their messages. */
  datatype ModelError = ValueError(message: string) | AttributeError(message: string)

  /** A user row: its names, its email, and the password hash the setter stores and the getter never reveals. */
  datatype User = User(firstName: string, lastName: string, email: string, passwordHash: string)

  /** The accepted repository project types, in the order the error message lists them. */
  const ProjectTypes: seq<string> := ["personal", "forked", "contributed"]

  /** Python's `sep.join(parts)`. */
  function Join(parts: seq<string>, sep: string): string
  {
    if |parts| == 0 then ""
    else if |parts| == 1 then parts[0]
    else parts[0] + sep + Join(parts[1..], sep)
  }

  /** The message `validate_project_type` raises, spelled out. */
  lemma ProjectTypeMessage()
    ensures "Project type must be one of the " + Join(ProjectTypes, ",")
         == "Project type must be one of the personal,forked,contributed"
  {
    assert Join(ProjectTypes[2..], ",") == "contributed";
    assert Join(ProjectTypes[1..], ",") == "forked,contributed";
    assert Join(ProjectTypes, ",") == "personal,forked,contributed";
    assert "Project type must be one of the " + "personal,forked,contributed"
        == "Project type must be one of the personal,forked,contributed";
  }

  /** `Repository.validate_project_type`: membership in `ProjectTypes`. */
  function ValidateProjectType(value: string): (r: Result<string, ModelError>)
    ensures r.Success? <==> value == "personal" || value == "forked" || value == "contributed"
    ensures r.Success? ==> r.value == value
    ensures r.Failure? ==> r.error == ValueError("Project type must be one of the personal,forked,contributed")
  {
    assert value in ProjectTypes <==> value == ProjectTypes[0] || value == ProjectTypes[1] || value == ProjectTypes[2];
    if value !in ProjectTypes then
      ProjectTypeMessage();
      Failure(ValueError("Project type must be one of the " + Join(ProjectTypes, ",")))
    else
      Success(value)
  }

  /** Reading `User.password` always raises: the property is write-only. */
  function ReadPassword(user: User): (r: Result<string, ModelError>)
    ensures r.Failure? && r.error == AttributeError("Password is write only")
  {
    Failure(AttributeError("Password is write only"))
  }

  // ---------------------------------------------------------------------
  // The email pattern r"[^@]+@[^@]+\.[^@]+" under `re.match`.

  /**
   * The pattern matches the prefix `s[..k]` with its first `[^@]+` ending at
   * the `@` at `i` and its literal `\.` at `j`. `re.match` anchors only the
   * start, so anything may follow `s[..k]`.
   */
  ghost predicate PatternMatchesPrefix(s: string, i: int, j: int, k: int)
  {
    && 0 < i && i + 1 < j && j + 1 < k <= |s|
    && s[i] == '@' && s[j] == '.'
    && '@' !in s[..i] && '@' !in s[i + 1..j] && '@' !in s[j + 1..k]
  }

  /** `re.match(r"[^@]+@[^@]+\.[^@]+", s)` is not `None`. */
  ghost predicate EmailPattern(s: string)
  {
    exists i, j, k :: PatternMatchesPrefix(s, i, j, k)
  }

  /** The text after the first `@` of `s` up to the next `@` or the end: the only text the domain groups can use. */
  function DomainPart(s: string): (t: string)
    ensures '@' !in t
  {
    var at := Sequences.IndexOf(s, '@');
    if at == |s| then []
    else
      var rest := s[at + 1..];
      rest[..Sequences.IndexOf(rest, '@')]
  }

  /** `t` holds a `.` with at least one character before it and at least one after it. */
  predicate HasInnerDot(t: string)
  {
    |t| >= 3 && '.' in t[1..|t| - 1]
  }

  /** The executable reading of the pattern: a non-empty part before the first `@`, and a domain part with an inner dot. */
  predicate MatchesEmail(s: string)
  {
    var at := Sequences.IndexOf(s, '@');
    0 < at < |s| && HasInnerDot(DomainPart(s))
  }

  /** `User.validate_email`: returns the address when the pattern matches at its start, raises otherwise. */
  function ValidateEmail(value: string): (r: Result<string, ModelError>)
    ensures r.Success? <==> EmailPattern(value)
    ensures r.Success? ==> r.value == value
    ensures r.Failure? ==> r.error == ValueError("Incorrect email format!")
  {
    MatchesEmailIffPattern(value);
    if MatchesEmail(value) then Success(value) else Failure(ValueError("Incorrect email format!"))
  }

  /** The characterisation by the first `@` and its domain part agrees with the pattern, in both directions. */
  lemma MatchesEmailIffPattern(s: string)
    ensures MatchesEmail(s) <==> EmailPattern(s)
  {
    if MatchesEmail(s) {
      MatchFromInnerDot(s);
    }
    if EmailPattern(s) {
      var i, j, k :| PatternMatchesPrefix(s, i, j, k);
      InnerDotFromMatch(s, i, j, k);
    }
  }

  lemma MatchFromInnerDot(s: string)
    requires MatchesEmail(s)
    ensures EmailPattern(s)
  {
    var i := Sequences.IndexOf(s, '@');
    var rest := s[i + 1..];
    var t := DomainPart(s);
    assert t == rest[..Sequences.IndexOf(rest, '@')];
    var d :| 1 <= d < |t| - 1 && t[d] == '.';
    var j, k := i + 1 + d, i + 1 + d + 2;
    assert s[i + 1..j] == t[..d];
    assert s[j + 1..k] == t[d + 1..d + 2];
    assert PatternMatchesPrefix(s, i, j, k);
  }

  lemma InnerDotFromMatch(s: string, i: int, j: int, k: int)
    requires PatternMatchesPrefix(s, i, j, k)
    ensures MatchesEmail(s)
  {
    var at := Sequences.IndexOf(s, '@');
    assert at == i;
    var rest := s[i + 1..];
    var q := Sequences.IndexOf(rest, '@');
    assert rest[..k - i - 1] == s[i + 1..j] + [s[j]] + s[j + 1..k];
    assert q >= k - i - 1;
    var t := rest[..q];
    assert t == DomainPart(s);
    assert t[j - i - 1] == '.';
    assert t[1..|t| - 1][j - i - 2] == '.';
  }

  /**
   * Acceptance in terms of the domain part `t`: the address is accepted
   * exactly when its first `@` is neither the first nor the last character
   * and `t` has a `.` at some index from 1 to |t| - 2.
   */
  lemma EmailAcceptedIffInnerDot(s: string)
    ensures ValidateEmail(s).Success? <==>
      && 0 < Sequences.IndexOf(s, '@') < |s|
      && exists j :: 1 <= j <= |DomainPart(s)| - 2 && DomainPart(s)[j] == '.'
  {
    InnerDotAtIndex(DomainPart(s));
  }

  lemma InnerDotAtIndex(t: string)
    ensures HasInnerDot(t) <==> exists j :: 1 <= j <= |t| - 2 && t[j] == '.'
  {
    if exists j :: 1 <= j <= |t| - 2 && t[j] == '.' {
      var j :| 1 <= j <= |t| - 2 && t[j] == '.';
      assert t[1..|t| - 1][j - 1] == '.';
    }
  }

  /** An address with no `@` is rejected. */
  lemma EmailWithoutAtRejected(s: string)
    requires '@' !in s
    ensures ValidateEmail(s) == Failure(ValueError("Incorrect email format!"))
  {
  }

  /** An address that starts with `@` is rejected: the local part must be non-empty. */
  lemma EmailLeadingAtRejected(s: string)
    requires |s| > 0 && s[0] == '@'
    ensures ValidateEmail(s).Failure?
  {
  }

  /** The match is anchored at the start only: text appended to an accepted address never causes rejection. */
  lemma EmailAcceptanceSurvivesSuffix(s: string, tail: string)
    requires ValidateEmail(s).Success?
    ensures ValidateEmail(s + tail) == Success(s + tail)
  {
    var i, j, k :| PatternMatchesPrefix(s, i, j, k);
    var u := s + tail;
    assert u[..i] == s[..i] && u[i + 1..j] == s[i + 1..j] && u[j + 1..k] == s[j + 1..k];
    assert PatternMatchesPrefix(u, i, j, k);
  }

  /** "a@b.c@x" is accepted although a second `@` follows the match. */
  lemma SecondAtAfterMatchAccepted()
    ensures ValidateEmail("a@b.c@x") == Success("a@b.c@x")
  {
    assert PatternMatchesPrefix("a@b.c@x", 1, 3, 5);
  }
}
