// Stamping and reading back the versions that builds use, quotes included
// (internal/codexcli/build_identity.go).

module VersionStamp {
  import opened Text
  import opened Manifest
  import opened ManifestLaws

  // Printable ASCII without quotes and backslashes, as versions are written in. Quoting these
  // is enclosing them in double quotes, and unquoting takes the quotes away.
  predicate IsPlain(version: string) {
    forall i | 0 <= i < |version| :: ' ' <= version[i] <= '~' && version[i] != '"' && version[i] != '\\'
  }

  function Quote(version: string): (quoted: string)
    requires IsPlain(version)
    ensures IsQuoted(quoted)
  {
    ['"'] + version + ['"']
  }

  // Unquoting; what it makes of other texts is given.
  function Unquote(text: string, other: string -> Option<string>): Option<string> {
    if IsQuoted(text) && IsPlain(text[1..|text| - 1]) then Some(text[1..|text| - 1]) else other(text)
  }

  // Stamping a version and reading it back returns the version.
  method StampVersionAndRead(text: string, table: string, version: string, other: string -> Option<string>)
      returns (result: Result<string, Error>, read: Option<string>)
    requires IsPlain(version)
    ensures result == StampedText(text, table, Quote(version))
    ensures result.Ok? ==> read == Some(version)
  {
    var quoted := Quote(version);
    assert quoted[1..|quoted| - 1] == version;
    result, read := StampAndRead(text, table, quoted, (s: string) => Unquote(s, other));
  }
}
