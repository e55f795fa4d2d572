/**
 * The command lines the script hands to the shell: `mkdir`/`rm` for the work
 * area, and the `qm` calls of `create_vm` and `configure_vm`. Each line is
 * written as its sequence of bare and double-quoted arguments, exactly as the
 * script's f-string lays them out, and is stated through the words the shell
 * passes on; the two structured `qm` option values are stated through the
 * fields Proxmox reads out of them.
 */
module QmCommands {
  import opened Wrappers
  import opened Text
  import opened Shell

  /** The disk slot the boot disk is attached to and booted from. */
  const BootSlot := "sata0"

  /** The value of `-boot`. */
  const BootOrder := "order=" + BootSlot

  /** The fixed first field of the `-net0` value. */
  const NetModel := "model=virtio"

  /**
   * `ShellWordsOfRender` with its `Texts(args)` written out as the literal
   * word list `words`, so that each command below can name its words directly.
   */
  lemma CommandWords(args: seq<Arg>, words: seq<string>)
    requires |args| > 0 && args[0].Bare? && CommandName(args[0].text)
    requires forall i :: 0 <= i < |args| ==> WellFormed(args[i])
    requires |words| == |args| && forall i :: 0 <= i < |args| ==> words[i] == args[i].text
    ensures ShellWords(Render(args)) == Some(words)
  {
    ShellWordsOfRender(args);
    assert Texts(args) == words;
  }

  /** The three programs the script runs are command names to the shell. */
  lemma ProgramsAreCommandNames()
    ensures CommandName("mkdir") && CommandName("rm") && CommandName("qm")
  {
    assert "mkdir" !in ReservedWords && "rm" !in ReservedWords && "qm" !in ReservedWords;
  }

  /** `mkdir -p {temp_dir}`: creates the work area. */
  function MakeWorkAreaCommand(tempDir: string): (cmd: string)
    ensures PlainWord(tempDir) ==> ShellWords(cmd) == Some(["mkdir", "-p", tempDir])
  {
    var args := [Bare("mkdir"), Bare("-p"), Bare(tempDir)];
    assert PlainWord(tempDir) ==> ShellWords(Render(args)) == Some(["mkdir", "-p", tempDir]) by {
      if PlainWord(tempDir) { CommandWords(args, ["mkdir", "-p", tempDir]); }
    }
    Render(args)
  }

  /** `rm -rf {directory}`: removes the work area. */
  function CleanUpCommand(directory: string): (cmd: string)
    ensures PlainWord(directory) ==> ShellWords(cmd) == Some(["rm", "-rf", directory])
  {
    var args := [Bare("rm"), Bare("-rf"), Bare(directory)];
    assert PlainWord(directory) ==> ShellWords(Render(args)) == Some(["rm", "-rf", directory]) by {
      if PlainWord(directory) { CommandWords(args, ["rm", "-rf", directory]); }
    }
    Render(args)
  }

  /** `qm importovf {VMID} "{ovf}" {storageLocation} --format qcow2`, the first call of `create_vm`. */
  function ImportOvfCommand(vmid: string, ovf: string, storageLocation: string): (cmd: string)
    ensures PlainWord(vmid) && QuotableText(ovf) && PlainWord(storageLocation) ==>
      ShellWords(cmd) == Some(["qm", "importovf", vmid, ovf, storageLocation, "--format", "qcow2"])
  {
    var args := [Bare("qm"), Bare("importovf"), Bare(vmid), Quoted(ovf), Bare(storageLocation),
                 Bare("--format"), Bare("qcow2")];
    var words := ["qm", "importovf", vmid, ovf, storageLocation, "--format", "qcow2"];
    assert PlainWord(vmid) && QuotableText(ovf) && PlainWord(storageLocation) ==>
      ShellWords(Render(args)) == Some(words) by {
      if PlainWord(vmid) && QuotableText(ovf) && PlainWord(storageLocation) { CommandWords(args, words); }
    }
    Render(args)
  }

  /** `qm importdisk {VMID} "{virtualDiskFile}" {storageLocation} --format qcow2`, the second call of `create_vm`. */
  function ImportDiskCommand(vmid: string, virtualDiskFile: string, storageLocation: string): (cmd: string)
    ensures PlainWord(vmid) && QuotableText(virtualDiskFile) && PlainWord(storageLocation) ==>
      ShellWords(cmd) == Some(["qm", "importdisk", vmid, virtualDiskFile, storageLocation, "--format", "qcow2"])
  {
    var args := [Bare("qm"), Bare("importdisk"), Bare(vmid), Quoted(virtualDiskFile), Bare(storageLocation),
                 Bare("--format"), Bare("qcow2")];
    var words := ["qm", "importdisk", vmid, virtualDiskFile, storageLocation, "--format", "qcow2"];
    assert PlainWord(vmid) && QuotableText(virtualDiskFile) && PlainWord(storageLocation) ==>
      ShellWords(Render(args)) == Some(words) by {
      if PlainWord(vmid) && QuotableText(virtualDiskFile) && PlainWord(storageLocation) { CommandWords(args, words); }
    }
    Render(args)
  }

  /**
   * `{storageLocation}:{VMID}/vm-{VMID}-disk-1.qcow2`: the volume the disk
   * import produced. Proxmox reads the storage before the first `:`, and the
   * volume name after it as the owning VMID and the image file name.
   */
  function BootDiskRef(storageLocation: string, vmid: string): (volume: string)
    ensures ':' !in storageLocation && ':' !in vmid && '/' !in vmid ==>
      var fields := Split(volume, ':');
      && |fields| == 2 && fields[0] == storageLocation
      && Split(fields[1], '/') == [vmid, "vm-" + vmid + "-disk-1.qcow2"]
  {
    var image := "vm-" + vmid + "-disk-1.qcow2";
    var name := vmid + "/" + image;
    assert ':' !in storageLocation && ':' !in vmid && '/' !in vmid ==>
      var fields := Split(storageLocation + ":" + name, ':');
      && |fields| == 2 && fields[0] == storageLocation
      && Split(fields[1], '/') == [vmid, image] by {
      if ':' !in storageLocation && ':' !in vmid && '/' !in vmid {
        assert ':' !in image && '/' !in image;
        assert ':' !in name;
        SplitJoin([vmid, image], '/');
        SplitJoin([storageLocation, name], ':');
      }
    }
    storageLocation + ":" + name
  }

  /** `model=virtio,bridge={bridge}`: Proxmox reads two `key=value` fields, the second naming the bridge. */
  function NetSpec(bridge: string): (spec: string)
    ensures ',' !in bridge && '=' !in bridge ==>
      var fields := Split(spec, ',');
      && |fields| == 2
      && Split(fields[0], '=') == ["model", "virtio"]
      && Split(fields[1], '=') == ["bridge", bridge]
  {
    var field := "bridge=" + bridge;
    assert ',' !in bridge && '=' !in bridge ==>
      var fields := Split(NetModel + "," + field, ',');
      && |fields| == 2
      && Split(fields[0], '=') == ["model", "virtio"]
      && Split(fields[1], '=') == ["bridge", bridge] by {
      if ',' !in bridge && '=' !in bridge {
        NetSpecSplit(bridge);
        NetModelFields();
        BridgeFields(bridge);
      }
    }
    NetModel + "," + field
  }

  lemma NetModelFields()
    ensures Split(NetModel, '=') == ["model", "virtio"]
  {
    assert NetModel == Join(["model", "virtio"], '=');
    SplitJoin(["model", "virtio"], '=');
  }

  lemma BridgeFields(bridge: string)
    requires '=' !in bridge
    ensures Split("bridge=" + bridge, '=') == ["bridge", bridge]
  {
    assert "bridge=" + bridge == Join(["bridge", bridge], '=');
    SplitJoin(["bridge", bridge], '=');
  }

  lemma NetSpecSplit(bridge: string)
    requires ',' !in bridge
    ensures Split(NetModel + "," + ("bridge=" + bridge), ',') == [NetModel, "bridge=" + bridge]
  {
    var field := "bridge=" + bridge;
    assert ',' !in field;
    assert ',' !in NetModel;
    assert NetModel + "," + field == Join([NetModel, field], ',');
    SplitJoin([NetModel, field], ',');
  }

  /** `qm set {VMID} -sata0 "{BootDiskRef}"`: attaches the imported disk. */
  function AttachBootDiskCommand(vmid: string, storageLocation: string): (cmd: string)
    ensures PlainWord(vmid) && QuotableText(storageLocation) ==>
      ShellWords(cmd) == Some(["qm", "set", vmid, "-" + BootSlot, BootDiskRef(storageLocation, vmid)])
  {
    var args := [Bare("qm"), Bare("set"), Bare(vmid), Bare("-" + BootSlot), Quoted(BootDiskRef(storageLocation, vmid))];
    var words := ["qm", "set", vmid, "-" + BootSlot, BootDiskRef(storageLocation, vmid)];
    assert PlainWord(vmid) && QuotableText(storageLocation) ==> ShellWords(Render(args)) == Some(words) by {
      if PlainWord(vmid) && QuotableText(storageLocation) {
        PlainIsQuotable(vmid);
        QuotableBootDiskRef(storageLocation, vmid);
        CommandWords(args, words);
      }
    }
    Render(args)
  }

  lemma QuotableBootDiskRef(storageLocation: string, vmid: string)
    requires QuotableText(storageLocation) && QuotableText(vmid)
    ensures QuotableText(BootDiskRef(storageLocation, vmid))
  {
    QuotableConcat(storageLocation, ":");
    QuotableConcat(storageLocation + ":", vmid);
    QuotableConcat(storageLocation + ":" + vmid, "/vm-");
    QuotableConcat(storageLocation + ":" + vmid + "/vm-", vmid);
    QuotableConcat(storageLocation + ":" + vmid + "/vm-" + vmid, "-disk-1.qcow2");
    assert BootDiskRef(storageLocation, vmid) == storageLocation + ":" + vmid + "/vm-" + vmid + "-disk-1.qcow2";
  }

  /** `qm set {VMID} -boot "order=sata0"`: boots from the attached disk. */
  function SetBootOrderCommand(vmid: string): (cmd: string)
    ensures PlainWord(vmid) ==> ShellWords(cmd) == Some(["qm", "set", vmid, "-boot", BootOrder])
  {
    var args := [Bare("qm"), Bare("set"), Bare(vmid), Bare("-boot"), Quoted(BootOrder)];
    assert PlainWord(vmid) ==> ShellWords(Render(args)) == Some(["qm", "set", vmid, "-boot", BootOrder]) by {
      if PlainWord(vmid) { CommandWords(args, ["qm", "set", vmid, "-boot", BootOrder]); }
    }
    Render(args)
  }

  /** `qm set {VMID} -net0 "model=virtio,bridge={bridge}"`: attaches the network interface. */
  function AttachNetworkCommand(vmid: string, bridge: string): (cmd: string)
    ensures PlainWord(vmid) && QuotableText(bridge) ==>
      ShellWords(cmd) == Some(["qm", "set", vmid, "-net0", NetSpec(bridge)])
  {
    var args := [Bare("qm"), Bare("set"), Bare(vmid), Bare("-net0"), Quoted(NetSpec(bridge))];
    var words := ["qm", "set", vmid, "-net0", NetSpec(bridge)];
    assert PlainWord(vmid) && QuotableText(bridge) ==> ShellWords(Render(args)) == Some(words) by {
      if PlainWord(vmid) && QuotableText(bridge) {
        QuotableConcat(NetModel + ",bridge=", bridge);
        assert NetSpec(bridge) == NetModel + ",bridge=" + bridge;
        CommandWords(args, words);
      }
    }
    Render(args)
  }

  /** The boot order names exactly the slot the boot disk was attached to. */
  lemma BootsFromAttachedDisk()
    ensures Split(BootOrder, '=') == ["order", BootSlot]
  {
    assert BootOrder == Join(["order", BootSlot], '=');
    SplitJoin(["order", BootSlot], '=');
  }

  /** The work-area path is not quoted: one holding a blank reaches `rm` as two paths. */
  lemma CleanUpSplitsBlankPath()
    ensures ShellWords(CleanUpCommand("/tmp/a b")) == Some(["rm", "-rf", "/tmp/a", "b"])
  {
    var args := [Bare("rm"), Bare("-rf"), Bare("/tmp/a"), Bare("b")];
    assert Render(args) == CleanUpCommand("/tmp/a b");
    ProgramsAreCommandNames();
    CommandWords(args, ["rm", "-rf", "/tmp/a", "b"]);
  }
}
