/**
 The value converters of the Argo CD application wizard.

 Each input of the wizard (a tile, a checkbox, a select) is bound to a path of
 the Argo `Application` document being built, and translates between the
 value the input shows and the data stored at that path with a pair of
 converters: a writer (input value to path value) and a reader (path value to
 input value). Here are those pairs:

 - the repository type tiles ('Git' or 'Helm') against the `source` object;
 - the sync option checkboxes against `Key=true|false` entries of the
   `syncOptions` list;
 - the prune propagation checkbox and select against the
   `PrunePropagationPolicy=<policy>` entry of the same list.

 The list writers are handed the array stored at the path and change it in
 place (index assignment, push, splice), returning that same array; when the
 path holds no array they start from a fresh empty one.
 */
module ArgoWizard {
  import opened JsValues

  const PrunePropagationPolicyPrefix: string := "PrunePropagationPolicy="
  const DefaultPrunePropagationPolicy: string := "background"

  // ---------------------------------------------------------------------------
  // Repository type tiles <-> source object
  // ---------------------------------------------------------------------------

  /** The empty `source` skeleton of a Git repository. */
  function GitSource(): (source: Value)
  {
    Obj(map["repoURL" := Str(""), "targetRevision" := Str(""), "path" := Str("")])
  }

  /** The empty `source` skeleton of a Helm repository. */
  function HelmSource(): (source: Value)
  {
    Obj(map["repoURL" := Str(""), "chart" := Str(""), "targetRevision" := Str("")])
  }

  /** The tile value 'Git' or 'Helm' becomes an empty source skeleton; any
      other value is stored as it is. */
  function RepositoryTypeToSource(value: Value): (source: Value)
    ensures value != Str("Git") && value != Str("Helm") ==> source == value
    ensures value == Str("Git") || value == Str("Helm") ==>
              && source.Obj?
              && "repoURL" in source.fields && "targetRevision" in source.fields
              && forall k :: k in source.fields ==> source.fields[k] == Str("")
  {
    if value == Str("Git") then GitSource()
    else if value == Str("Helm") then HelmSource()
    else value
  }

  /** Which tile a stored source selects: 'Git' when it has the keys repoURL,
      path and targetRevision, else 'Helm' when it has repoURL, chart and
      targetRevision, else none (undefined). */
  function SourceToRepositoryType(source: Value): (repositoryType: Value)
    ensures repositoryType == Str("Git") || repositoryType == Str("Helm") || repositoryType == Undefined
    ensures !source.Obj? ==> repositoryType == Undefined
    ensures repositoryType != Undefined ==>
              "repoURL" in source.fields && "targetRevision" in source.fields
  {
    match source
    case Obj(fields) =>
      if "repoURL" in fields && "path" in fields && "targetRevision" in fields then Str("Git")
      else if "repoURL" in fields && "chart" in fields && "targetRevision" in fields then Str("Helm")
      else Undefined
    // null passes `typeof === 'object'` but is excluded; an array has none of the keys
    case _ => Undefined
  }

  /** Selecting a tile and reading the stored source back selects the same tile. */
  lemma RepositoryTypeRoundTrip(t: string)
    requires t == "Git" || t == "Helm"
    ensures SourceToRepositoryType(RepositoryTypeToSource(Str(t))) == Str(t)
  {
    if t == "Git" {
      assert "path" in GitSource().fields;
    } else {
      assert "Git" != "Helm";
      assert "path" !in HelmSource().fields;
      assert "chart" in HelmSource().fields;
    }
  }

  /** The tile depends only on which keys the source has, so editing the
      values of the skeleton's fields keeps the tile selected. */
  lemma RepositoryTypeDependsOnKeysOnly(m1: map<string, Value>, m2: map<string, Value>)
    requires m1.Keys == m2.Keys
    ensures SourceToRepositoryType(Obj(m1)) == SourceToRepositoryType(Obj(m2))
  {
    assert forall k :: k in m1 <==> k in m2;
  }

  // ---------------------------------------------------------------------------
  // The list the writers edit
  // ---------------------------------------------------------------------------

  /** The entries a writer starts from: those of the array stored at the path,
      or none when the path holds anything else. */
  function Elements(stored: Value): (entries: seq<Value>)
    reads Footprint(stored)
    ensures !stored.Arr? ==> entries == []
  {
    if stored.Arr? then stored.ref.elems else []
  }

  /** The array a writer edits: the one stored at the path itself, or a new
      empty array when the path holds anything else. */
  method ArrayToEdit(stored: Value) returns (newArray: JsArray)
    ensures stored.Arr? ==> newArray == stored.ref
    ensures !stored.Arr? ==> fresh(newArray)
    ensures newArray.elems == Elements(stored)
  {
    if stored.Arr? {
      newArray := stored.ref;
    } else {
      newArray := new JsArray();
    }
  }

  /** Overwrite the first entry that starts with `prefix` by `entry`, or append
      `entry` when there is none. */
  function SetOrAppend(s: seq<Value>, prefix: string, entry: string): (r: seq<Value>)
  {
    var i := FirstWithPrefix(s, prefix);
    if i != -1 then s[i := Str(entry)] else s + [Str(entry)]
  }

  /** What SetOrAppend changes: the list keeps its length exactly when some
      entry already starts with `prefix`, otherwise it grows by one; the first
      prefixed entry afterwards is `entry`, at the old first index or at the
      end; every other entry is left as it was. */
  lemma SetOrAppendEdits(s: seq<Value>, prefix: string, entry: string)
    requires prefix <= entry
    ensures var r := SetOrAppend(s, prefix, entry);
            && (|r| == |s| <==> exists j :: 0 <= j < |s| && StartsWith(s[j], prefix))
            && (|r| == |s| || |r| == |s| + 1)
            && FirstWithPrefix(r, prefix) == (if |r| == |s| then FirstWithPrefix(s, prefix) else |s|)
            && r[FirstWithPrefix(r, prefix)] == Str(entry)
            && forall j :: 0 <= j < |s| && j != FirstWithPrefix(s, prefix) ==> r[j] == s[j]
  {
    var r := SetOrAppend(s, prefix, entry);
    var i := FirstWithPrefix(s, prefix);
    assert StartsWith(Str(entry), prefix);
    if i == -1 {
      assert r[|s|] == Str(entry);
      assert forall j :: 0 <= j < |s| ==> r[j] == s[j];
    } else {
      assert r[i] == Str(entry);
      assert forall j :: 0 <= j < i ==> r[j] == s[j];
    }
  }

  /** SetOrAppend leaves exactly as many prefixed entries as there were, and
      one when there were none: a list with at most one such entry keeps at
      most one. */
  lemma SetOrAppendCount(s: seq<Value>, prefix: string, entry: string)
    requires prefix <= entry
    ensures var n := CountWithPrefix(s, prefix);
            CountWithPrefix(SetOrAppend(s, prefix, entry), prefix) == if n == 0 then 1 else n
  {
    var i := FirstWithPrefix(s, prefix);
    assert StartsWith(Str(entry), prefix);
    CountZeroIffNotFound(s, prefix);
    if i != -1 {
      CountUpdateMatching(s, prefix, i, Str(entry));
    } else {
      CountConcat(s, [Str(entry)], prefix);
      assert CountWithPrefix([Str(entry)], prefix) == 1 by {
        assert [Str(entry)][1..] == [];
      }
    }
  }

  // ---------------------------------------------------------------------------
  // Sync option checkboxes <-> `Key=true|false` entries
  // ---------------------------------------------------------------------------

  /** `value.toString()` of a boolean. */
  function BooleanText(b: bool): (text: string)
  {
    if b then "true" else "false"
  }

  /** The sync option entry `Key=true` or `Key=false`. */
  function SyncOptionEntry(key: string, b: bool): (entry: string)
    ensures key + "=" <= entry
  {
    var entry := key + "=" + BooleanText(b);
    assert entry[..|key + "="|] == key + "=";
    entry
  }

  /** `booleanToSyncOptions(key)(value, array)`: a boolean overwrites the
      first `key=` entry or is appended; anything else leaves the list alone.
      The array stored at the path is changed in place and returned. */
  method BooleanToSyncOptions(key: string, value: Value, stored: Value) returns (newArray: JsArray)
    modifies Footprint(stored)
    ensures stored.Arr? ==> newArray == stored.ref
    ensures !stored.Arr? ==> fresh(newArray)
    ensures newArray.elems ==
              if value.Bool? then SetOrAppend(old(Elements(stored)), key + "=", SyncOptionEntry(key, value.b))
              else old(Elements(stored))
    ensures value == Bool(true) ==> SyncOptionsToBoolean(key, Arr(newArray))
  {
    ghost var before := Elements(stored);
    newArray := ArrayToEdit(stored);
    var index := newArray.FindIndexWithPrefix(key + "=");
    if value.Bool? {
      var entry := Str(SyncOptionEntry(key, value.b));
      if index != -1 {
        newArray.SetAt(index, entry);
      } else {
        newArray.Push(entry);
      }
      if value.b {
        BooleanReadBack(key, true, before, newArray);
      }
    }
  }

  /** `syncOptionsToBoolean(key)(array)`: checked when the stored array
      contains the exact entry `key=true`, wherever it is. */
  function SyncOptionsToBoolean(key: string, stored: Value): (checked: bool)
    reads Footprint(stored)
    ensures checked ==> stored.Arr? && FirstWithPrefix(stored.ref.elems, key + "=") != -1
  {
    stored.Arr? && Str(key + "=true") in stored.ref.elems
  }

  /** Writing a boolean and reading it back gives that boolean: always for
      `true`; for `false` when the list had at most one `key=` entry. */
  lemma BooleanReadBack(key: string, b: bool, s: seq<Value>, a: JsArray)
    requires a.elems == SetOrAppend(s, key + "=", SyncOptionEntry(key, b))
    requires !b ==> CountWithPrefix(s, key + "=") <= 1
    ensures SyncOptionsToBoolean(key, Arr(a)) == b
  {
    var p := key + "=";
    var e := SyncOptionEntry(key, b);
    SetOrAppendEdits(s, p, e);
    var r := a.elems;
    var at := FirstWithPrefix(r, p);
    if b {
      assert r[at] == Str(key + "=true");
    } else {
      SetOrAppendCount(s, p, e);
      OnlyEntryIsFalse(key, r, at);
    }
  }

  /** A list whose only `key=` entry is `key=false` has no `key=true` entry. */
  lemma OnlyEntryIsFalse(key: string, r: seq<Value>, at: int)
    requires CountWithPrefix(r, key + "=") <= 1
    requires 0 <= at < |r| && r[at] == Str(SyncOptionEntry(key, false))
    ensures Str(key + "=true") !in r
  {
    var p := key + "=";
    if Str(key + "=true") in r {
      var j :| 0 <= j < |r| && r[j] == Str(key + "=true");
      assert StartsWith(r[j], p) by {
        assert SyncOptionEntry(key, true) == key + "=true";
      }
      AtMostOneIsFirst(r, p, j);
      AtMostOneIsFirst(r, p, at);
      assert false;
    }
  }

  /** Why the read-back of `false` needs at most one `key=` entry: writing
      `false` over `[Replace=false, Replace=true]` only edits the first entry,
      and the reader still finds `Replace=true`. */
  lemma BooleanFalseHiddenByLaterTrue(a: JsArray)
    requires a.elems == SetOrAppend([Str("Replace=false"), Str("Replace=true")], "Replace=",
                                    SyncOptionEntry("Replace", false))
    ensures SyncOptionsToBoolean("Replace", Arr(a))
  {
    var s := [Str("Replace=false"), Str("Replace=true")];
    assert StartsWith(s[0], "Replace=") by {
      assert "Replace=false"[..|"Replace="|] == "Replace=";
    }
    assert FirstWithPrefix(s, "Replace=") == 0;
    assert a.elems[1] == Str("Replace=true");
    assert "Replace" + "=true" == "Replace=true";
  }

  // ---------------------------------------------------------------------------
  // Prune propagation checkbox <-> presence of a `PrunePropagationPolicy=` entry
  // ---------------------------------------------------------------------------

  /** The entry the checkbox adds: the prefix followed by the default policy. */
  function DefaultPolicyEntry(): (entry: string)
    ensures PrunePropagationPolicyPrefix <= entry
  {
    PrunePropagationPolicyPrefix + DefaultPrunePropagationPolicy
  }

  /** The list after the checkbox is set (`on`) or cleared: setting appends
      the default entry unless a prefixed entry exists; clearing removes the
      first prefixed entry, if any. */
  function PolicyToggled(on: bool, s: seq<Value>): (r: seq<Value>)
  {
    var i := FirstWithPrefix(s, PrunePropagationPolicyPrefix);
    if on then
      if i == -1 then s + [Str(DefaultPolicyEntry())] else s
    else
      if i != -1 then s[..i] + s[i + 1..] else s
  }

  /** `checkboxPrunePropagationPolicyToSyncOptions(value, array)`: a boolean
      toggles the prefixed entry; anything else leaves the list alone. The
      array stored at the path is changed in place and returned. */
  method CheckboxPrunePropagationPolicyToSyncOptions(value: Value, stored: Value) returns (newArray: JsArray)
    modifies Footprint(stored)
    ensures stored.Arr? ==> newArray == stored.ref
    ensures !stored.Arr? ==> fresh(newArray)
    ensures newArray.elems ==
              if value.Bool? then PolicyToggled(value.b, old(Elements(stored))) else old(Elements(stored))
    ensures value == Bool(true) ==> CheckboxSyncOptionsToPrunePropagationPolicy(Arr(newArray))
  {
    ghost var before := Elements(stored);
    newArray := ArrayToEdit(stored);
    if value.Bool? {
      var index := newArray.FindIndexWithPrefix(PrunePropagationPolicyPrefix);
      if value.b {
        if index == -1 {
          newArray.Push(Str(DefaultPolicyEntry()));
        }
        assert newArray.elems == PolicyToggled(true, before);
        CheckboxReadBack(true, before, newArray);
      } else {
        if index != -1 {
          newArray.SpliceOne(index);
        }
        assert newArray.elems == PolicyToggled(false, before);
      }
    }
  }

  /** `array.find(...)` with the prefix callback: the first prefixed entry,
      or undefined. */
  function FindWithPrefix(s: seq<Value>, prefix: string): (found: Value)
    ensures found == Undefined || StartsWith(found, prefix)
    ensures found == Undefined <==> forall i :: 0 <= i < |s| ==> !StartsWith(s[i], prefix)
    ensures found != Undefined ==>
              exists i :: 0 <= i < |s| && s[i] == found && StartsWith(found, prefix) &&
                          forall j :: 0 <= j < i ==> !StartsWith(s[j], prefix)
  {
    var i := FirstWithPrefix(s, prefix);
    if i == -1 then Undefined else s[i]
  }

  /** `checkboxSyncOptionsToPrunePropagationPolicy(array)`: checked exactly
      when the stored value is an array with a string entry starting with
      `PrunePropagationPolicy=` (a found entry is a string, never undefined). */
  function CheckboxSyncOptionsToPrunePropagationPolicy(stored: Value): (checked: bool)
    reads Footprint(stored)
    ensures checked <==> stored.Arr? && exists i :: 0 <= i < |stored.ref.elems| &&
                                                   StartsWith(stored.ref.elems[i], PrunePropagationPolicyPrefix)
  {
    stored.Arr? && FindWithPrefix(stored.ref.elems, PrunePropagationPolicyPrefix) != Undefined
  }

  /** Setting the checkbox twice is the same as setting it once. */
  lemma PolicyToggleOnIdempotent(s: seq<Value>)
    ensures PolicyToggled(true, PolicyToggled(true, s)) == PolicyToggled(true, s)
  {
    var p := PrunePropagationPolicyPrefix;
    var r := PolicyToggled(true, s);
    if FirstWithPrefix(s, p) == -1 {
      assert StartsWith(r[|s|], p);
    }
  }

  /** Setting the checkbox appends the default entry when there was no
      prefixed entry and changes nothing otherwise. */
  lemma PolicyToggleOnAdds(s: seq<Value>)
    ensures var r := PolicyToggled(true, s);
            && (r == s <==> exists j :: 0 <= j < |s| && StartsWith(s[j], PrunePropagationPolicyPrefix))
            && (r != s ==> r == s + [Str(DefaultPolicyEntry())])
  {
    if FirstWithPrefix(s, PrunePropagationPolicyPrefix) == -1 {
      assert |s + [Str(DefaultPolicyEntry())]| != |s|;
    }
  }

  /** After the checkbox is set there is at least one prefixed entry, and
      exactly one if there was at most one before. */
  lemma PolicyToggleOnCount(s: seq<Value>)
    ensures var n := CountWithPrefix(s, PrunePropagationPolicyPrefix);
            CountWithPrefix(PolicyToggled(true, s), PrunePropagationPolicyPrefix) == if n == 0 then 1 else n
  {
    var p := PrunePropagationPolicyPrefix;
    var e := Str(DefaultPolicyEntry());
    CountZeroIffNotFound(s, p);
    if FirstWithPrefix(s, p) == -1 {
      CountConcat(s, [e], p);
      assert CountWithPrefix([e], p) == 1 by {
        assert [e][1..] == [];
      }
    }
  }

  /** Clearing the checkbox removes exactly the first prefixed entry and keeps
      the others in order; without a prefixed entry the list is unchanged. */
  lemma PolicyToggleOffRemovesFirst(s: seq<Value>)
    ensures var i := FirstWithPrefix(s, PrunePropagationPolicyPrefix);
            var r := PolicyToggled(false, s);
            && (i == -1 ==> r == s)
            && (i != -1 ==>
                  && |r| == |s| - 1
                  && (forall j :: 0 <= j < i ==> r[j] == s[j])
                  && (forall j :: i < j < |s| ==> r[j - 1] == s[j]))
  {
  }

  /** Clearing the checkbox leaves one prefixed entry fewer when there was
      one, and none when there was none. */
  lemma PolicyToggleOffCount(s: seq<Value>)
    ensures var p := PrunePropagationPolicyPrefix;
            var n := CountWithPrefix(s, p);
            CountWithPrefix(PolicyToggled(false, s), p) == if n == 0 then 0 else n - 1
  {
    var p := PrunePropagationPolicyPrefix;
    var i := FirstWithPrefix(s, p);
    CountZeroIffNotFound(s, p);
    if i != -1 {
      var front, back := s[..i], s[i + 1..];
      assert s == front + [s[i]] + back;
      assert PolicyToggled(false, s) == front + back;
      CountConcat(front + [s[i]], back, p);
      CountConcat(front, [s[i]], p);
      CountConcat(front, back, p);
      assert CountWithPrefix([s[i]], p) == 1 by {
        assert [s[i]][1..] == [];
      }
    }
  }

  /** Clearing the checkbox takes exactly the removed entry out of the
      multiset of entries. */
  lemma PolicyToggleOffMultiset(s: seq<Value>)
    ensures var i := FirstWithPrefix(s, PrunePropagationPolicyPrefix);
            i != -1 ==> multiset(PolicyToggled(false, s)) + multiset{s[i]} == multiset(s)
  {
    var i := FirstWithPrefix(s, PrunePropagationPolicyPrefix);
    if i != -1 {
      assert s == s[..i] + [s[i]] + s[i + 1..];
    }
  }

  /** The checkbox reads back what was written: always when set; when
      cleared, provided there was at most one prefixed entry. */
  lemma CheckboxReadBack(on: bool, s: seq<Value>, a: JsArray)
    requires a.elems == PolicyToggled(on, s)
    requires !on ==> CountWithPrefix(s, PrunePropagationPolicyPrefix) <= 1
    ensures CheckboxSyncOptionsToPrunePropagationPolicy(Arr(a)) == on
  {
    var p := PrunePropagationPolicyPrefix;
    if on {
      PolicyToggleOnAdds(s);
      var r := a.elems;
      if FirstWithPrefix(s, p) == -1 {
        assert StartsWith(r[|s|], p);
      } else {
        assert StartsWith(r[FirstWithPrefix(s, p)], p);
      }
    } else {
      PolicyToggleOffCount(s);
      CountZeroIffNotFound(a.elems, p);
      CountZeroIffNotFound(s, p);
    }
  }

  // ---------------------------------------------------------------------------
  // Prune propagation select <-> value of the `PrunePropagationPolicy=` entry
  // ---------------------------------------------------------------------------

  /** `prunePropagationPolicyToSyncOptions(value, array)`: a string overwrites
      the first prefixed entry or is appended; anything else leaves the list
      alone. The array stored at the path is changed in place and returned. */
  method PrunePropagationPolicyToSyncOptions(value: Value, stored: Value) returns (newArray: JsArray)
    modifies Footprint(stored)
    ensures stored.Arr? ==> newArray == stored.ref
    ensures !stored.Arr? ==> fresh(newArray)
    ensures newArray.elems ==
              if value.Str? then SetOrAppend(old(Elements(stored)), PrunePropagationPolicyPrefix,
                                             PrunePropagationPolicyPrefix + value.s)
              else old(Elements(stored))
    ensures value.Str? ==> SyncOptionsToPrunePropagationPolicy(Arr(newArray)) == value.s
  {
    ghost var before := Elements(stored);
    newArray := ArrayToEdit(stored);
    var index := newArray.FindIndexWithPrefix(PrunePropagationPolicyPrefix);
    if value.Str? {
      var entry := Str(PrunePropagationPolicyPrefix + value.s);
      if index != -1 {
        newArray.SetAt(index, entry);
      } else {
        newArray.Push(entry);
      }
      PolicyReadBack(value.s, before, newArray);
    }
  }

  /** `syncOptionsToPrunePropagationPolicy(array)`: the text after the prefix
      of the first prefixed entry, or 'background' when the stored value is
      not an array or has no such entry. */
  function SyncOptionsToPrunePropagationPolicy(stored: Value): (policy: string)
    reads Footprint(stored)
    ensures !stored.Arr? || FirstWithPrefix(stored.ref.elems, PrunePropagationPolicyPrefix) == -1 ==>
              policy == DefaultPrunePropagationPolicy
    ensures stored.Arr? && FirstWithPrefix(stored.ref.elems, PrunePropagationPolicyPrefix) != -1 ==>
              stored.ref.elems[FirstWithPrefix(stored.ref.elems, PrunePropagationPolicyPrefix)]
                == Str(PrunePropagationPolicyPrefix + policy)
  {
    if stored.Arr? then
      var index := FirstWithPrefix(stored.ref.elems, PrunePropagationPolicyPrefix);
      if index != -1 then
        // the entry found is a string, so the source's `typeof value === 'string'` test always holds
        var entry := stored.ref.elems[index].s;
        assert entry == PrunePropagationPolicyPrefix + entry[|PrunePropagationPolicyPrefix|..];
        entry[|PrunePropagationPolicyPrefix|..]
      else DefaultPrunePropagationPolicy
    else DefaultPrunePropagationPolicy
  }

  /** Any policy written by the select is what the select reads back. */
  lemma PolicyReadBack(v: string, s: seq<Value>, a: JsArray)
    requires a.elems == SetOrAppend(s, PrunePropagationPolicyPrefix, PrunePropagationPolicyPrefix + v)
    ensures SyncOptionsToPrunePropagationPolicy(Arr(a)) == v
    ensures CheckboxSyncOptionsToPrunePropagationPolicy(Arr(a))
  {
    var p := PrunePropagationPolicyPrefix;
    assert p <= p + v;
    SetOrAppendEdits(s, p, p + v);
    var i := FirstWithPrefix(a.elems, p);
    assert a.elems[i] == Str(p + v);
    assert (p + v)[|p|..] == v;
  }

  /** Setting the checkbox on a list without a prefixed entry makes the select
      show the default policy; otherwise the select keeps showing the existing
      first policy. */
  lemma CheckboxOnShowsDefaultPolicy(s: seq<Value>, a: JsArray)
    requires a.elems == PolicyToggled(true, s)
    ensures SyncOptionsToPrunePropagationPolicy(Arr(a)) ==
              if FirstWithPrefix(s, PrunePropagationPolicyPrefix) == -1 then DefaultPrunePropagationPolicy
              else s[FirstWithPrefix(s, PrunePropagationPolicyPrefix)].s[|PrunePropagationPolicyPrefix|..]
  {
    var p := PrunePropagationPolicyPrefix;
    if FirstWithPrefix(s, p) == -1 {
      assert StartsWith(a.elems[|s|], p);
      assert FirstWithPrefix(a.elems, p) == |s|;
      assert (p + DefaultPrunePropagationPolicy)[|p|..] == DefaultPrunePropagationPolicy;
    }
  }

  /** Clearing the checkbox on a list with at most one prefixed entry makes
      the select show the default policy. */
  lemma CheckboxOffShowsDefaultPolicy(s: seq<Value>, a: JsArray)
    requires a.elems == PolicyToggled(false, s)
    requires CountWithPrefix(s, PrunePropagationPolicyPrefix) <= 1
    ensures SyncOptionsToPrunePropagationPolicy(Arr(a)) == DefaultPrunePropagationPolicy
  {
    PolicyToggleOffCount(s);
    CountZeroIffNotFound(a.elems, PrunePropagationPolicyPrefix);
  }

  /** With two prefixed entries, clearing the checkbox leaves the second one,
      and the select shows its policy rather than the default. */
  lemma CheckboxOffKeepsLaterPolicy(a: JsArray)
    requires a.elems == PolicyToggled(false, [Str("PrunePropagationPolicy=foreground"),
                                              Str("PrunePropagationPolicy=orphan")])
    ensures SyncOptionsToPrunePropagationPolicy(Arr(a)) == "orphan"
  {
    var p := PrunePropagationPolicyPrefix;
    var s := [Str("PrunePropagationPolicy=foreground"), Str("PrunePropagationPolicy=orphan")];
    assert StartsWith(s[0], p) by {
      assert s[0].s == p + "foreground";
    }
    assert FirstWithPrefix(s, p) == 0;
    assert a.elems == s[1..] == [s[1]];
    assert s[1].s == p + "orphan";
    assert StartsWith(a.elems[0], p);
    assert (p + "orphan")[|p|..] == "orphan";
  }
}
