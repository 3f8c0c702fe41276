/** Two pieces of application start-up: the keyring of document-service
    verification keys, and the choice of which plugins to load. */
module App {

  /** `s.split(sep)` with an explicit separator: the pieces between
      separators, empty pieces included; an empty string gives one empty
      piece. */
  function Split(s: string, sep: char): (r: seq<string>)
    ensures |r| >= 1
    ensures forall i :: 0 <= i < |r| ==> sep !in r[i]
  {
    if s == [] then [[]]
    else
      var rest := Split(s[1..], sep);
      if s[0] == sep then [[]] + rest
      else [[s[0]] + rest[0]] + rest[1..]
  }

  /** `sep.join(parts)`. */
  function Join(parts: seq<string>, sep: char): string
    requires |parts| >= 1
  {
    if |parts| == 1 then parts[0] else parts[0] + [sep] + Join(parts[1..], sep)
  }

  /** Joining the pieces gives back the split string. */
  lemma {:induction false} JoinSplit(s: string, sep: char)
    ensures Join(Split(s, sep), sep) == s
  {
    if s != [] {
      var rest := Split(s[1..], sep);
      JoinSplit(s[1..], sep);
      if s[0] != sep {
        if |rest| == 1 {
          assert s == [s[0]] + rest[0];
        } else {
          assert Join(rest, sep) == rest[0] + [sep] + Join(rest[1..], sep);
          assert s == [s[0]] + s[1..];
        }
      }
    }
  }

  /** Splitting a join of separator-free pieces gives back the pieces. */
  lemma {:induction false} SplitJoin(parts: seq<string>, sep: char)
    requires |parts| >= 1
    requires forall i :: 0 <= i < |parts| ==> sep !in parts[i]
    ensures Split(Join(parts, sep), sep) == parts
  {
    if |parts| == 1 {
      SplitPiece(parts[0], [], sep);
      assert parts[0] + [] == parts[0];
    } else {
      SplitJoin(parts[1..], sep);
      var tail := [sep] + Join(parts[1..], sep);
      assert Join(parts, sep) == parts[0] + tail;
      SplitPiece(parts[0], tail, sep);
      assert Split(tail, sep) == [[]] + parts[1..] by {
        assert tail[1..] == Join(parts[1..], sep);
      }
      var st := Split(tail, sep);
      assert st[0] == [] && st[1..] == parts[1..];
      assert parts[0] + [] == parts[0];
      assert [parts[0]] + parts[1..] == parts;
    }
  }

  /** A separator-free prefix joins the first piece of what follows it. */
  lemma {:induction false} SplitPiece(p: string, t: string, sep: char)
    requires sep !in p
    ensures Split(p + t, sep) == [p + Split(t, sep)[0]] + Split(t, sep)[1..]
  {
    if p != [] {
      assert (p + t)[1..] == p[1..] + t;
      SplitPiece(p[1..], t, sep);
      assert [p[0]] + (p[1..] + Split(t, sep)[0]) == p + Split(t, sep)[0];
    } else {
      var st := Split(t, sep);
      assert p + t == t && p + st[0] == st[0];
      assert st == [st[0]] + st[1..];
    }
  }

  // ----------------------------------------------------------------- keyring

  /** A verification key, kept opaque: the key text it was built from. */
  datatype Verifier = Verifier(key: string)

  /** `key[:8]`: the first eight characters, or all of a shorter key. */
  function Prefix8(key: string): (r: string)
    ensures |r| <= 8 && r <= key
    ensures |key| >= 8 ==> |r| == 8
    ensures |key| < 8 ==> r == key
  {
    if |key| <= 8 then key else key[..8]
  }

  /** The keyring after registering `entries` in order, starting empty:
      each entry under its prefix, later entries replacing earlier ones. */
  function KeyringOf(entries: seq<string>): map<string, Verifier> {
    if entries == [] then map[]
    else
      var last := entries[|entries| - 1];
      KeyringOf(entries[..|entries| - 1])[Prefix8(last) := Verifier(last)]
  }

  /** The `dockeys` setting when present, otherwise the signer's own
      verification key in hex. */
  function KeySource(settings: map<string, string>, ownVk: string): string {
    if "dockeys" in settings then settings["dockeys"] else ownVk
  }

  /** Builds the keyring from the settings and the signer's own key. */
  method BuildKeyring(settings: map<string, string>, ownVk: string) returns (keyring: map<string, Verifier>)
    ensures keyring == KeyringOf(Split(KeySource(settings, ownVk), '\0'))
  {
    var dockeys := if "dockeys" in settings then settings["dockeys"] else ownVk;
    var parts := Split(dockeys, '\0');
    keyring := map[];
    var i := 0;
    while i < |parts|
      invariant 0 <= i <= |parts|
      invariant keyring == KeyringOf(parts[..i])
    {
      var key := parts[i];
      assert parts[..i + 1][..i] == parts[..i];
      keyring := keyring[Prefix8(key) := Verifier(key)];
      i := i + 1;
    }
    assert parts[..|parts|] == parts;
  }

  /** The keyring's keys are exactly the prefixes of the entries. */
  lemma {:induction false} KeyringKeys(entries: seq<string>)
    ensures KeyringOf(entries).Keys == set e | e in entries :: Prefix8(e)
  {
    if entries != [] {
      var init := entries[..|entries| - 1];
      KeyringKeys(init);
      assert entries == init + [entries[|entries| - 1]];
    }
  }

  /** Every key holds the verifier of the last entry with that prefix. */
  lemma {:induction false} LastEntryWins(entries: seq<string>, j: int)
    requires 0 <= j < |entries|
    requires forall l :: j < l < |entries| ==> Prefix8(entries[l]) != Prefix8(entries[j])
    ensures Prefix8(entries[j]) in KeyringOf(entries)
    ensures KeyringOf(entries)[Prefix8(entries[j])] == Verifier(entries[j])
  {
    var init := entries[..|entries| - 1];
    if j < |entries| - 1 {
      assert init[j] == entries[j];
      forall l | j < l < |init| ensures Prefix8(init[l]) != Prefix8(init[j]) {
        assert init[l] == entries[l];
      }
      LastEntryWins(init, j);
    }
  }

  /** Without a `dockeys` setting the keyring holds just the signer's own
      key, under its prefix. */
  lemma OwnKeyWhenUnset(settings: map<string, string>, ownVk: string)
    requires "dockeys" !in settings && '\0' !in ownVk
    ensures KeyringOf(Split(KeySource(settings, ownVk), '\0')) == map[Prefix8(ownVk) := Verifier(ownVk)]
  {
    SplitJoin([ownVk], '\0');
    assert KeyringOf([ownVk]) == KeyringOf([])[Prefix8(ownVk) := Verifier(ownVk)];
  }

  /** A `dockeys` setting that is present but empty still wins over the
      signer's own key: the keyring holds one empty key under the empty
      prefix. */
  lemma EmptyDockeysRegistersEmptyKey(settings: map<string, string>, ownVk: string)
    requires "dockeys" in settings && settings["dockeys"] == ""
    ensures KeyringOf(Split(KeySource(settings, ownVk), '\0')) == map["" := Verifier("")]
  {
    assert Split("", '\0') == [""];
    assert KeyringOf([""]) == KeyringOf([])[Prefix8("") := Verifier("")];
  }

  /** With a `dockeys` setting the signer's own key is registered only if
      one of the configured entries has the same prefix. */
  lemma OwnKeyNotAdded(settings: map<string, string>, ownVk: string)
    requires "dockeys" in settings
    ensures var entries := Split(settings["dockeys"], '\0');
            Prefix8(ownVk) in KeyringOf(Split(KeySource(settings, ownVk), '\0'))
            <==> exists e :: e in entries && Prefix8(e) == Prefix8(ownVk)
  {
    KeyringKeys(Split(settings["dockeys"], '\0'));
  }

  /** Every configured entry is registered under its prefix. */
  lemma EveryEntryRegistered(settings: map<string, string>, ownVk: string, e: string)
    requires "dockeys" in settings && e in Split(settings["dockeys"], '\0')
    ensures Prefix8(e) in KeyringOf(Split(KeySource(settings, ownVk), '\0'))
  {
    KeyringKeys(Split(settings["dockeys"], '\0'));
  }

  // ----------------------------------------------------------------- plugins

  /** A plugin is selected when the `plugins` setting is absent or empty, or
      when its name is one of the comma-separated names. */
  predicate Selected(settings: map<string, string>, name: string) {
    "plugins" !in settings || settings["plugins"] == "" || name in Split(settings["plugins"], ',')
  }

  /** The selected entry points, in their order. */
  function Filtered(settings: map<string, string>, names: seq<string>): (r: seq<string>)
    ensures |r| <= |names|
  {
    if names == [] then []
    else (if Selected(settings, names[0]) then [names[0]] else []) + Filtered(settings, names[1..])
  }

  /** Loads, in order, the plugins the settings select. */
  method LoadPlugins(settings: map<string, string>, entryPoints: seq<string>) returns (loaded: seq<string>)
    ensures loaded == Filtered(settings, entryPoints)
  {
    var plugins := if "plugins" in settings && settings["plugins"] != "" then Split(settings["plugins"], ',') else [];
    loaded := [];
    var i := 0;
    while i < |entryPoints|
      invariant 0 <= i <= |entryPoints|
      invariant loaded == Filtered(settings, entryPoints[..i])
    {
      var name := entryPoints[i];
      FilteredAppend(settings, entryPoints[..i], name);
      assert entryPoints[..i + 1] == entryPoints[..i] + [name];
      if plugins == [] || name in plugins {
        loaded := loaded + [name];
      }
      i := i + 1;
    }
    assert entryPoints[..|entryPoints|] == entryPoints;
  }

  /** Filtering one more entry point appends it when it is selected. */
  lemma {:induction false} FilteredAppend(settings: map<string, string>, names: seq<string>, x: string)
    ensures Filtered(settings, names + [x])
            == Filtered(settings, names) + (if Selected(settings, x) then [x] else [])
  {
    if names != [] {
      assert (names + [x])[1..] == names[1..] + [x];
      FilteredAppend(settings, names[1..], x);
    } else {
      assert names + [x] == [x];
    }
  }

  /** An entry point is loaded exactly when it is selected. */
  lemma {:induction false} LoadedIffSelected(settings: map<string, string>, names: seq<string>, x: string)
    ensures x in Filtered(settings, names) <==> x in names && Selected(settings, x)
  {
    if names != [] {
      LoadedIffSelected(settings, names[1..], x);
      assert x in names <==> x == names[0] || x in names[1..];
    }
  }

  /** Naming plugins in a comma-separated list selects exactly those names. */
  lemma SelectedFromList(settings: map<string, string>, names: seq<string>, x: string)
    requires |names| >= 1 && (forall i :: 0 <= i < |names| ==> ',' !in names[i])
    requires "plugins" in settings && settings["plugins"] == Join(names, ',') && settings["plugins"] != ""
    ensures Selected(settings, x) <==> x in names
  {
    SplitJoin(names, ',');
  }
}
