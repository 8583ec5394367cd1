/**
 * User name and password rules (user_management.py). The name rule is
 * `re.match("^[a-zA-Z0-9_]{3,20}$", username)`; Python's `$` also matches just before a
 * final "\n", so a valid name followed by one newline is accepted too.
 */
module UserManagement {
  /** The regex class `[a-zA-Z0-9_]`. */
  predicate IsNameChar(c: char) {
    ('a' <= c <= 'z') || ('A' <= c <= 'Z') || ('0' <= c <= '9') || c == '_'
  }

  /** 3 to 20 characters, each a letter, digit or underscore. */
  predicate IsPlainName(s: string) {
    3 <= |s| <= 20 && forall i :: 0 <= i < |s| ==> IsNameChar(s[i])
  }

  /** How many leading characters of `s` the character class matches greedily. */
  function NameCharRun(s: string): (n: nat)
    ensures n <= |s|
    ensures forall i :: 0 <= i < n ==> IsNameChar(s[i])
    ensures n < |s| ==> !IsNameChar(s[n])
  {
    if s == [] || !IsNameChar(s[0]) then 0 else 1 + NameCharRun(s[1..])
  }

  /**
   * The matcher: after the greedy run (backtracking down to 3 characters at most), `$` must
   * stand at the end of the string or before a final "\n". Since "\n" is not a name character,
   * only the whole run can be followed by either.
   */
  function ValidateUsername(username: string): (ok: bool)
    ensures ok <==> IsPlainName(username)
                    || (|username| > 0 && username[|username| - 1] == '\n'
                        && IsPlainName(username[..|username| - 1]))
  {
    var n := NameCharRun(username);
    3 <= n <= 20 && (n == |username| || (n == |username| - 1 && username[n] == '\n'))
  }

  /** `len(password) >= 8`, counted in code points. */
  predicate ValidatePassword(password: string)
    ensures ValidatePassword(password) ==> password != ""
  {
    |password| >= 8
  }

  /** `hashlib.sha256(password.encode()).hexdigest()`, with the digest itself a parameter. */
  function HashPassword(sha256: string -> string, password: string): string {
    sha256(password)
  }

  /** Lengths the name rule admits: 3 to 20, or 21 when the last character is "\n". */
  lemma UsernameLength(username: string)
    ensures ValidateUsername(username) ==> 3 <= |username| <= 21
    ensures ValidateUsername(username) && |username| == 21 ==> username[20] == '\n'
    ensures |username| < 3 || |username| > 21 ==> !ValidateUsername(username)
  {
  }

  /** "abc\n" and a 21-character name ending in "\n" are accepted; "ab\n", "abc\n\n" and "" are not. */
  lemma TrailingNewlineAccepted()
    ensures ValidateUsername("abc\n")
    ensures ValidateUsername(seq(20, _ => 'a') + "\n")
    ensures !ValidateUsername("abc\n\n") && !ValidateUsername("ab\n") && !ValidateUsername("")
  {
    assert "abc\n"[..3] == "abc";
    var long := seq(20, _ => 'a');
    assert (long + "\n")[..20] == long;
    assert !IsNameChar("abc\n\n"[3]);
  }

  /** Appending characters to a valid password keeps it valid. */
  lemma PasswordUpwardClosed(password: string, extra: string)
    ensures ValidatePassword(password) ==> ValidatePassword(password + extra)
  {
  }
}
