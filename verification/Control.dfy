/** Shared field checks: timestamps, identifiers and bounded text. */
module Control {

  const LAST_TIMESTAMP: int := 253_402_300_799

  predicate IsTimestamp(t: int) {
    0 <= t <= LAST_TIMESTAMP
  }

  /** Length of a character in UTF-8. */
  function Utf8Length(c: char): nat {
    if c <= '\U{7f}' then 1 else if c <= '\U{7ff}' then 2 else if c <= '\U{ffff}' then 3 else 4
  }

  function ByteLength(s: string): nat {
    if s == [] then 0 else Utf8Length(s[0]) + ByteLength(s[1..])
  }

  predicate IsControl(c: char) {
    c < ' ' || '\U{7f}' <= c <= '\U{9f}'
  }

  /** The Unicode White_Space property. */
  predicate IsWhitespace(c: char) {
    || '\U{09}' <= c <= '\U{0d}'
    || c in {' ', '\U{85}', '\U{a0}', '\U{1680}', '\U{2028}', '\U{2029}', '\U{202f}', '\U{205f}', '\U{3000}'}
    || '\U{2000}' <= c <= '\U{200a}'
  }

  predicate IsBlank(s: string) {
    forall c | c in s :: IsWhitespace(c)
  }

  predicate IsDigit(c: char) {
    '0' <= c <= '9'
  }

  predicate IsAsciiAlphanumeric(c: char) {
    IsDigit(c) || 'A' <= c <= 'Z' || 'a' <= c <= 'z'
  }

  function LowerChar(c: char): char {
    if 'A' <= c <= 'Z' then (c as int + 32) as char else c
  }

  function Lower(s: string): string {
    seq(|s|, i requires 0 <= i < |s| => LowerChar(s[i]))
  }

  predicate Contains(s: string, needle: string) {
    exists i | 0 <= i <= |s| :: needle <= s[i..]
  }

  const SENSITIVE: seq<string> := [
    "-----begin private key", "-----begin rsa private key", "secret_canary",
    "authorization: bearer ", "sk-proj-", "ghp_", "gho_"
  ]

  predicate IsText(s: string, limit: nat) {
    && ByteLength(s) <= limit
    && (forall c | c in s :: !IsForbidden(c))
    && (forall p | p in SENSITIVE :: !Contains(Lower(s), p))
  }

  predicate IsForbidden(c: char) {
    || (IsControl(c) && c != '\n' && c != '\t')
    || '\U{202a}' <= c <= '\U{202e}'
    || '\U{2066}' <= c <= '\U{2069}'
  }

  predicate IsId(s: string) {
    && 0 < |s| <= 64
    && forall c | c in s :: IsAsciiAlphanumeric(c) || c in "-_."
  }

  /** An identifier minted by a provider: bounded text, not blank and not option-like. */
  predicate IsOpaque(s: string) {
    IsText(s, 256) && !IsBlank(s) && s[0] != '-'
  }

  /** An identifier of a provider: 1 to 256 bytes of text, neither blank nor like an option. */
  predicate IsProviderId(s: string) {
    && s != [] && ByteLength(s) <= 256 && s[0] != '-'
    && (exists c | c in s :: !IsWhitespace(c))
    && (forall c | c in s :: c in {'\n', '\t'} || !IsControl(c))
    && IsText(s, 256)
  }

  lemma OpaqueMeaning(s: string)
    ensures IsOpaque(s) <==> IsProviderId(s)
  {
    if s != [] {
      assert s[0] in s;
    }
  }
}
