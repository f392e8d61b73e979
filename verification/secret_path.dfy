/**
 * The inventory group is named after the last segment of the configured
 * secret path, computed as Python's `path.split('/')[-1]`.
 */
module SecretPath {

  const Separator := '/'

  /**
   * Python's `str.split(sep)` with a one-character separator: the pieces
   * between occurrences of `sep`, empty pieces included, always at least one.
   */
  function Split(s: string, sep: char): (parts: seq<string>)
    ensures |parts| >= 1
    ensures forall i :: 0 <= i < |parts| ==> sep !in parts[i]
    ensures sep !in s ==> parts == [s]
    ensures sep in s ==> |parts| >= 2
    decreases |s|
  {
    if s == [] then [[]]
    else
      var rest := Split(s[1..], sep);
      if s[0] == sep then [[]] + rest
      else
        assert sep !in s ==> [s[0]] + s[1..] == s;
        [[s[0]] + rest[0]] + rest[1..]
  }

  /** Python's `sep.join(parts)`. */
  function Join(parts: seq<string>, sep: char): string
    requires |parts| >= 1
    decreases |parts|
  {
    if |parts| == 1 then parts[0] else parts[0] + [sep] + Join(parts[1..], sep)
  }

  /** `split` loses nothing: joining the pieces gives back the string. */
  lemma {:induction false} JoinSplit(s: string, sep: char)
    ensures Join(Split(s, sep), sep) == s
    decreases |s|
  {
    if s != [] {
      var rest := Split(s[1..], sep);
      JoinSplit(s[1..], sep);
      if s[0] == sep {
        assert Split(s, sep)[1..] == rest;
      } else if |rest| == 1 {
        assert Split(s, sep) == [[s[0]] + rest[0]];
      } else {
        var parts := Split(s, sep);
        assert parts[1..] == rest[1..];
        assert Join(rest, sep) == rest[0] + [sep] + Join(rest[1..], sep);
      }
    }
  }

  /** `config_vault_secret_path.split('/')[-1]` */
  function GroupName(secretPath: string): (group: string)
    ensures Separator !in group
    ensures Separator !in secretPath ==> group == secretPath
  {
    var parts := Split(secretPath, Separator);
    parts[|parts| - 1]
  }

  /**
   * The last piece of a split is a suffix of the string that is either the
   * whole string or directly preceded by the separator.
   */
  lemma {:induction false} LastPartIsSuffix(s: string, sep: char)
    ensures var parts := Split(s, sep); var last := parts[|parts| - 1];
      && |last| <= |s|
      && s[|s| - |last|..] == last
      && (|last| < |s| ==> s[|s| - |last| - 1] == sep)
    decreases |s|
  {
    if s != [] {
      var rest := Split(s[1..], sep);
      LastPartIsSuffix(s[1..], sep);
      var parts := Split(s, sep);
      var last := rest[|rest| - 1];
      if s[0] != sep && |rest| == 1 {
        assert rest == [s[1..]];
        assert parts == [s];
      } else {
        assert parts[|parts| - 1] == last;
        TailSuffix(s, last);
      }
    }
  }

  /** A suffix of `s[1..]` is a suffix of `s`, with the same character before it when it has one. */
  lemma TailSuffix(s: string, last: string)
    requires s != [] && |last| <= |s| - 1 && s[1..][|s| - 1 - |last|..] == last
    ensures s[|s| - |last|..] == last
    ensures |last| < |s| - 1 ==> s[|s| - |last| - 1] == s[1..][|s| - 1 - |last| - 1]
  {
    assert s[|s| - |last|..] == s[1..][|s| - 1 - |last|..];
  }

  /**
   * The group name is the part of the secret path after its last `/`, or
   * the whole path when it has none.
   */
  lemma GroupNameIsLastSegment(secretPath: string)
    ensures var group := GroupName(secretPath);
      && Separator !in group
      && |group| <= |secretPath|
      && secretPath[|secretPath| - |group|..] == group
      && (|group| < |secretPath| ==> secretPath[|secretPath| - |group| - 1] == Separator)
  {
    LastPartIsSuffix(secretPath, Separator);
  }
}
