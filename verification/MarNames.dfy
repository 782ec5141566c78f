/** targetPathForModelId of model-mesh-torchserve-adapter/server/server.go: model ids as names in
    one directory.  Two replacement passes make an encoding that can be undone. */
module MarNames {
  import opened Wrappers

  /** strings.ReplaceAll for a non-empty pattern: from the left, without overlaps. */
  function ReplaceAll(s: string, from: string, to: string): string
    requires from != ""
    decreases |s|
  {
    if s == "" then ""
    else if from <= s then to + ReplaceAll(s[|from|..], from, to)
    else [s[0]] + ReplaceAll(s[1..], from, to)
  }

  /** First \ becomes \\, then / becomes \_. */
  function Escaped(id: string): string {
    ReplaceAll(ReplaceAll(id, "\\", "\\\\"), "/", "\\_")
  }

  const MAR_SUFFIX := ".mar"

  function MarFileName(id: string): string {
    Escaped(id) + MAR_SUFFIX
  }

  /* ---------- one encoding, character by character ---------- */

  function EncodeChar(c: char): string {
    if c == '\\' then "\\\\" else if c == '/' then "\\_" else [c]
  }

  function Encode(id: string): string {
    if id == "" then "" else EncodeChar(id[0]) + Encode(id[1..])
  }

  /** The id of an escaped name; None for a name that no id has. */
  function Decode(s: string): Option<string>
    decreases |s|
  {
    if s == "" then Some("")
    else if s[0] == '/' then None
    else if s[0] == '\\' then
      if |s| >= 2 && s[1] == '\\' then Prepend('\\', Decode(s[2..]))
      else if |s| >= 2 && s[1] == '_' then Prepend('/', Decode(s[2..]))
      else None
    else Prepend(s[0], Decode(s[1..]))
  }

  function Prepend(c: char, r: Option<string>): Option<string> {
    match r
    case None => None
    case Some(s) => Some([c] + s)
  }

  /** A pass for one character replaces it wherever it is. */
  lemma {:induction false} PassOver(a: string, b: string, c: char, to: string)
    requires c !in a
    ensures ReplaceAll(a + b, [c], to) == a + ReplaceAll(b, [c], to)
    decreases |a|
  {
    if a == "" {
      assert a + b == b;
    } else {
      assert (a + b)[1..] == a[1..] + b;
      PassOver(a[1..], b, c, to);
      assert a[0] in a && (a + b)[0] == a[0];
      assert a == [a[0]] + a[1..];
    }
  }

  /** The two passes together are the encoding: the second does not see what the first wrote. */
  lemma {:induction false} TwoPassesEncode(id: string)
    ensures Escaped(id) == Encode(id)
    decreases |id|
  {
    if id != "" {
      TwoPassesEncode(id[1..]);
      var rest := ReplaceAll(id[1..], "\\", "\\\\");
      if id[0] == '\\' {
        assert "\\" <= id;
        PassOver("\\\\", rest, '/', "\\_");
      } else if id[0] == '/' {
        assert !("\\" <= id);
        assert "/" <= [id[0]] + rest && ([id[0]] + rest)[1..] == rest;
      } else {
        assert !("\\" <= id);
        PassOver([id[0]], rest, '/', "\\_");
      }
    }
  }

  /** A name piece by piece: every backslash is doubled, every slash becomes \_, and the other
      characters stay. */
  lemma {:induction false} EscapedParts(c: char, id: string)
    ensures Escaped("") == ""
    ensures Escaped([c] + id)
            == (if c == '\\' then ['\\', '\\'] else if c == '/' then ['\\', '_'] else [c]) + Escaped(id)
  {
    TwoPassesEncode(id);
    TwoPassesEncode([c] + id);
    assert ([c] + id)[1..] == id;
  }

  lemma NameExample()
    ensures MarFileName("a/\\") == "a\\_\\\\.mar"
  {
    EscapedParts('a', "/\\");
    EscapedParts('/', "\\");
    EscapedParts('\\', "");
    assert "a/\\" == ['a'] + (['/'] + (['\\'] + ""));
  }

  /** The encoding can be undone. */
  lemma {:induction false} DecodeEncode(id: string)
    ensures Decode(Encode(id)) == Some(id)
    decreases |id|
  {
    if id != "" {
      DecodeEncode(id[1..]);
      var e := Encode(id);
      assert id == [id[0]] + id[1..];
      if id[0] == '\\' || id[0] == '/' {
        assert e[2..] == Encode(id[1..]);
      } else {
        assert e[1..] == Encode(id[1..]);
      }
    }
  }

  /** Only escaped ids decode. */
  lemma {:induction false} EncodeDecode(s: string)
    requires Decode(s).Some?
    ensures Encode(Decode(s).value) == s
    decreases |s|
  {
    if s != "" {
      var r := Decode(s).value;
      if s[0] == '\\' {
        EncodeDecode(s[2..]);
        assert r[1..] == Decode(s[2..]).value;
        assert s == s[..2] + s[2..];
      } else {
        EncodeDecode(s[1..]);
        assert r[1..] == Decode(s[1..]).value;
        assert s == [s[0]] + s[1..];
      }
    }
  }

  /* ---------- what the adapter relies on ---------- */

  predicate HasSuffix(s: string, suffix: string) {
    |suffix| <= |s| && s[|s| - |suffix|..] == suffix
  }

  lemma SuffixIs(s: string, suffix: string)
    ensures HasSuffix(s, suffix) <==> exists front :: s == front + suffix
  {
    if HasSuffix(s, suffix) {
      assert s == s[..|s| - |suffix|] + suffix;
    }
  }

  /** The id that a file name stands for. */
  function IdOf(name: string): Option<string> {
    if HasSuffix(name, MAR_SUFFIX) then Decode(name[..|name| - |MAR_SUFFIX|]) else None
  }

  /** A name is the name of an id exactly when it decodes to it: no two ids share a name. */
  lemma NameOfId(id: string, name: string)
    ensures IdOf(name) == Some(id) <==> name == MarFileName(id)
  {
    TwoPassesEncode(id);
    DecodeEncode(id);
    assert MarFileName(id)[..|MarFileName(id)| - |MAR_SUFFIX|] == Encode(id);
    if IdOf(name) == Some(id) {
      EncodeDecode(name[..|name| - |MAR_SUFFIX|]);
      assert name == name[..|name| - |MAR_SUFFIX|] + MAR_SUFFIX;
    }
  }

  lemma NamesDiffer(id1: string, id2: string)
    requires MarFileName(id1) == MarFileName(id2)
    ensures id1 == id2
  {
    NameOfId(id1, MarFileName(id1));
    NameOfId(id2, MarFileName(id2));
  }

  lemma {:induction false} EncodeHasNoSlash(id: string)
    ensures '/' !in Encode(id)
    decreases |id|
  {
    if id != "" {
      EncodeHasNoSlash(id[1..]);
    }
  }

  /** A name is one element of a path, so the file lies in the directory itself; the filter of the
      startup cleanup catches it; and it is never the config file. */
  lemma NameIsSafe(id: string)
    ensures '/' !in MarFileName(id)
    ensures MarFileName(id) !in ["", ".", ".."]
    ensures |MarFileName(id)| >= 4 && MarFileName(id)[|MarFileName(id)| - 4..] == ".mar"
    ensures HasSuffix(MarFileName(id), ".mar")
    ensures MarFileName(id) != "mmconfig.properties" && !HasSuffix("mmconfig.properties", ".mar")
  {
    TwoPassesEncode(id);
    EncodeHasNoSlash(id);
    var name := MarFileName(id);
    assert name[|name| - |MAR_SUFFIX|..] == MAR_SUFFIX;
    assert "mmconfig.properties"[|"mmconfig.properties"| - 1] == 's' && MAR_SUFFIX[3] == 'r';
    assert name[|name| - 1] == MAR_SUFFIX[3];
  }
}
