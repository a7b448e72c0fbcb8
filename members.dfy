/**
 * Which members of an archive extract_zip and extract_tar unpack: the two
 * JSON files, then only the members under the nodes subfolder, and for a
 * tar file never a device or a link.  The unpacking itself is not modelled.
 */
module Members {
  import opened Wrappers

  /** The path separator os.sep (POSIX). */
  const SEP: string := "/"

  const METADATA_FILE: string := "metadata.json"
  const DATA_FILE: string := "data.json"

  datatype MemberKind = Regular | Directory | CharDevice | BlockDevice | Fifo | SymLink | HardLink

  /** A tar member: its name and what TarInfo says it is. */
  datatype TarMember = TarMember(name: string, kind: MemberKind)

  /** KeyError from zip.extract or tar.getmember: the archive has no member of this name. */
  datatype ExtractError = MissingMember(name: string)

  /** TarInfo.isdev(): a character device, a block device or a FIFO. */
  predicate IsDevice(m: TarMember) {
    m.kind == CharDevice || m.kind == BlockDevice || m.kind == Fifo
  }

  /** TarInfo.issym() or TarInfo.islnk(). */
  predicate IsLink(m: TarMember) {
    m.kind == SymLink || m.kind == HardLink
  }

  /** name.startswith(nodes_export_subfolder + os.sep) */
  predicate UnderSubfolder(name: string, subfolder: string) {
    subfolder + SEP <= name
  }

  /** The zip members that the loop extracts, in archive order. */
  function KeptNames(names: seq<string>, subfolder: string): (r: seq<string>)
    ensures |r| <= |names|
  {
    if |names| == 0 then []
    else
      var rest := KeptNames(names[..|names| - 1], subfolder);
      if UnderSubfolder(names[|names| - 1], subfolder) then rest + [names[|names| - 1]] else rest
  }

  /** A tar member the loop extracts: not a device, not a link, and under the subfolder. */
  predicate TarKept(m: TarMember, subfolder: string) {
    !IsDevice(m) && !IsLink(m) && UnderSubfolder(m.name, subfolder)
  }

  /** The tar members that the loop extracts, in archive order. */
  function KeptMembers(members: seq<TarMember>, subfolder: string): (r: seq<TarMember>)
    ensures |r| <= |members|
  {
    if |members| == 0 then []
    else
      var rest := KeptMembers(members[..|members| - 1], subfolder);
      if TarKept(members[|members| - 1], subfolder) then rest + [members[|members| - 1]] else rest
  }

  /** extract_zip: metadata.json, data.json, then the loop over namelist(). */
  method ExtractZip(names: seq<string>, subfolder: string) returns (r: Result<seq<string>, ExtractError>)
    ensures METADATA_FILE !in names ==> r == Err(MissingMember(METADATA_FILE))
    ensures METADATA_FILE in names && DATA_FILE !in names ==> r == Err(MissingMember(DATA_FILE))
    ensures METADATA_FILE in names && DATA_FILE in names ==> r == Ok([METADATA_FILE, DATA_FILE] + KeptNames(names, subfolder))
  {
    if METADATA_FILE !in names {
      return Err(MissingMember(METADATA_FILE));
    }
    if DATA_FILE !in names {
      return Err(MissingMember(DATA_FILE));
    }
    var extracted := [METADATA_FILE, DATA_FILE];
    for i := 0 to |names|
      invariant extracted == [METADATA_FILE, DATA_FILE] + KeptNames(names[..i], subfolder)
    {
      assert names[..i + 1][..i] == names[..i];
      if !UnderSubfolder(names[i], subfolder) {
        continue;
      }
      extracted := extracted + [names[i]];
    }
    assert names[..|names|] == names;
    return Ok(extracted);
  }

  /** extract_tar: metadata.json, data.json, then the loop over getmembers(). */
  method ExtractTar(members: seq<TarMember>, subfolder: string) returns (r: Result<seq<TarMember>, ExtractError>)
    ensures (forall i :: 0 <= i < |members| ==> members[i].name != METADATA_FILE) ==> r == Err(MissingMember(METADATA_FILE))
    ensures r.Ok? ==> |r.value| >= 2 && r.value[0].name == METADATA_FILE && r.value[1].name == DATA_FILE
    ensures r.Ok? ==> r.value[2..] == KeptMembers(members, subfolder)
    ensures r.Err? ==> r == Err(MissingMember(METADATA_FILE)) || r == Err(MissingMember(DATA_FILE))
    ensures r == Err(MissingMember(DATA_FILE)) ==> forall i :: 0 <= i < |members| ==> members[i].name != DATA_FILE
    ensures r == Err(MissingMember(METADATA_FILE)) ==> forall i :: 0 <= i < |members| ==> members[i].name != METADATA_FILE
    ensures ((exists i :: 0 <= i < |members| && members[i].name == METADATA_FILE)
         && (exists i :: 0 <= i < |members| && members[i].name == DATA_FILE)) ==> r.Ok?
  {
    var metadata := GetMember(members, METADATA_FILE);
    if metadata.None? {
      return Err(MissingMember(METADATA_FILE));
    }
    var data := GetMember(members, DATA_FILE);
    if data.None? {
      return Err(MissingMember(DATA_FILE));
    }
    var extracted := [metadata.value, data.value];
    for i := 0 to |members|
      invariant extracted == [metadata.value, data.value] + KeptMembers(members[..i], subfolder)
    {
      assert members[..i + 1][..i] == members[..i];
      var m := members[i];
      if IsDevice(m) {
        continue;
      }
      if IsLink(m) {
        continue;
      }
      if !UnderSubfolder(m.name, subfolder) {
        continue;
      }
      extracted := extracted + [m];
    }
    assert members[..|members|] == members;
    return Ok(extracted);
  }

  /** tar.getmember(name): the last member of that name, as tarfile returns it. */
  method GetMember(members: seq<TarMember>, name: string) returns (r: Option<TarMember>)
    ensures r.None? <==> forall i :: 0 <= i < |members| ==> members[i].name != name
    ensures r.Some? ==> r.value.name == name && exists i :: 0 <= i < |members| && members[i] == r.value && forall j :: i < j < |members| ==> members[j].name != name
  {
    r := None;
    ghost var at := -1;
    for i := 0 to |members|
      invariant r.None? <==> forall j :: 0 <= j < i ==> members[j].name != name
      invariant r.Some? ==> 0 <= at < i && members[at] == r.value && r.value.name == name && forall j :: at < j < i ==> members[j].name != name
    {
      if members[i].name == name {
        r, at := Some(members[i]), i;
      }
    }
  }

  /** The zip loop keeps exactly the names under the subfolder. */
  lemma {:induction false} KeptNamesSpec(names: seq<string>, subfolder: string)
    ensures forall n :: n in KeptNames(names, subfolder) <==> n in names && UnderSubfolder(n, subfolder)
  {
    if |names| > 0 {
      var init := names[..|names| - 1];
      KeptNamesSpec(init, subfolder);
      assert names == init + [names[|names| - 1]];
    }
  }

  /** The tar loop keeps exactly the regular files and directories under the subfolder: never a device or a link. */
  lemma {:induction false} KeptMembersSpec(members: seq<TarMember>, subfolder: string)
    ensures forall m :: m in KeptMembers(members, subfolder) <==> m in members && TarKept(m, subfolder)
  {
    if |members| > 0 {
      var init := members[..|members| - 1];
      KeptMembersSpec(init, subfolder);
      assert members == init + [members[|members| - 1]];
    }
  }

  /** Filtering again keeps everything: the kept names are all under the subfolder. */
  lemma {:induction false} KeptNamesIdempotent(names: seq<string>, subfolder: string)
    ensures KeptNames(KeptNames(names, subfolder), subfolder) == KeptNames(names, subfolder)
  {
    if |names| > 0 {
      var init := names[..|names| - 1];
      KeptNamesIdempotent(init, subfolder);
      var rest := KeptNames(init, subfolder);
      if UnderSubfolder(names[|names| - 1], subfolder) {
        var r := rest + [names[|names| - 1]];
        assert r[..|r| - 1] == rest;
      }
    }
  }

  /** A name with `..` segments passes the filter: only the prefix is checked. */
  lemma ParentSegmentPasses()
    ensures KeptNames(["nodes/../escape"], "nodes") == ["nodes/../escape"]
  {
    assert UnderSubfolder("nodes/../escape", "nodes") by {
      assert ("nodes" + SEP) == "nodes/../escape"[..6];
    }
    assert ["nodes/../escape"][..0] == [];
  }
}
