/** The effect routines as the broker runs them: straight-line code over the file-system
    calls. Each one is shown to be the undisturbed run of its small-step program. */
module Disk {
  import opened Attest
  import opened Files
  import opened Effects

  class Workspace {
    var files: World

    constructor (initial: World)
      ensures files == initial
    {
      files := initial;
    }

    // ---- System calls: true on success -----------------------------------------------

    method RenameNoReplace(from: Path, to: Path) returns (ok: bool)
      modifies this
      ensures ok == (from in old(files) && to !in old(files))
      ensures files == if ok then Move(old(files), from, to) else old(files)
    {
      ok := from in files && to !in files;
      if ok { files := Move(files, from, to); }
    }

    method RenameExchange(a: Path, b: Path) returns (ok: bool)
      modifies this
      ensures ok == (a in old(files) && b in old(files))
      ensures files == if ok then Exchange(old(files), a, b) else old(files)
    {
      ok := a in files && b in files;
      if ok { files := Exchange(files, a, b); }
    }

    method Replace(from: Path, to: Path) returns (ok: bool)
      modifies this
      ensures ok == (from in old(files) && !(to in old(files) && old(files)[to].Dir?))
      ensures files == if ok then (old(files) - {from})[to := old(files)[from]] else old(files)
    {
      ok := from in files && !(to in files && files[to].Dir?);
      if ok { files := (files - {from})[to := files[from]]; }
    }

    method Unlink(p: Path) returns (ok: bool)
      modifies this
      ensures ok == (p in old(files) && !old(files)[p].Dir?)
      ensures files == if ok then old(files) - {p} else old(files)
    {
      ok := p in files && !files[p].Dir?;
      if ok { files := files - {p}; }
    }

    method SetAttribute(p: Path, att: Option<Att>) returns (ok: bool)
      modifies this
      ensures ok == Opens(old(files), p)
      ensures files == if ok then SetAtt(old(files), p, att) else old(files)
    {
      ok := Opens(files, p);
      if ok { files := SetAtt(files, p, att); }
    }

    // ---- The routines ------------------------------------------------------------------

    method CasReplace(kid: string, j: Job) returns (ok: bool)
      requires j.Write?
      modifies this
      ensures Conf(files, Done(ok)) == Finish(kid, j, Conf(old(files), Swap))
    {
      ghost var end := Finish(kid, j, Conf(files, Swap));
      if j.before.Unavailable? {
        ok := Replace(j.private, j.target);
        assert end == Finish(kid, j, Conf(files, Done(ok)));
        return;
      }
      if j.before.Absent? {
        if j.private !in files { return false; }
        ok := RenameNoReplace(j.private, j.target);
        if !ok {
          assert end == Finish(kid, j, Conf(files, Drop(false)));
          var _ := Unlink(j.private);
        }
        assert end == Finish(kid, j, Conf(files, Done(ok)));
        return;
      }
      var swapped := RenameExchange(j.private, j.target);
      if !swapped { return false; }
      assert end == Finish(kid, j, Conf(files, Inspect));
      if !files[j.private].Reg? {
        assert end == Finish(kid, j, Conf(files, Done(false)));
        return false;
      }
      if files[j.private].digest != j.before.digest {
        assert end == Finish(kid, j, Conf(files, Undo));
        var undone := RenameExchange(j.private, j.target);
        assert end == Finish(kid, j, Conf(files, Drop(false)));
        var _ := Unlink(j.private);
        assert end == Finish(kid, j, Conf(files, Done(false)));
        return false;
      }
      assert end == Finish(kid, j, Conf(files, Drop(true)));
      ok := Unlink(j.private);
      assert end == Finish(kid, j, Conf(files, Done(ok)));
    }

    method CasDelete(kid: string, j: Job) returns (ok: bool)
      requires j.Delete?
      modifies this
      ensures Conf(files, Done(ok)) == Finish(kid, j, Conf(old(files), Claim))
    {
      ghost var end := Finish(kid, j, Conf(files, Claim));
      if !j.before.Present? { return false; }
      var moved := RenameNoReplace(j.target, j.private);
      if !moved { return false; }
      assert end == Finish(kid, j, Conf(files, Inspect));
      if !files[j.private].Reg? || files[j.private].digest != j.before.digest {
        assert end == Finish(kid, j, Conf(files, PutBack));
        var _ := RenameNoReplace(j.private, j.target);
        assert end == Finish(kid, j, Conf(files, Done(false)));
        return false;
      }
      assert end == Finish(kid, j, Conf(files, Drop(true)));
      ok := Unlink(j.private);
      assert end == Finish(kid, j, Conf(files, Done(ok)));
    }

    method RenameProtocol(kid: string, j: Job) returns (ok: bool)
      requires j.Rename?
      modifies this
      ensures Conf(files, Done(ok)) == Finish(kid, j, Conf(old(files), Claim))
    {
      ghost var end := Finish(kid, j, Conf(files, Claim));
      if !j.before.Present? { return false; }
      var claimed := RenameNoReplace(j.source, j.private);  // out of sight
      if !claimed { return false; }
      assert end == Finish(kid, j, Conf(files, Inspect));
      if !files[j.private].Reg? || files[j.private].digest != j.before.digest {
        ok := GiveBack(kid, j);  // not the recorded file
        return;
      }
      assert end == Finish(kid, j, Conf(files, Reattest));
      ok := ReattestAndPlace(kid, j);
    }

    method GiveBack(kid: string, j: Job) returns (ok: bool)
      requires j.Rename?
      modifies this
      ensures Conf(files, Done(ok)) == Finish(kid, j, Conf(old(files), PutBack))
    {
      var _ := RenameNoReplace(j.private, j.source);
      ok := false;
    }

    method ReattestAndPlace(kid: string, j: Job) returns (ok: bool)
      requires j.Rename? && j.before.Present?
      modifies this
      ensures Conf(files, Done(ok)) == Finish(kid, j, Conf(old(files), Reattest))
    {
      ghost var end := Finish(kid, j, Conf(files, Reattest));
      var signed := false;
      if !j.attFails {
        signed := SetAttribute(j.private, Some(Sealed(kid, j.rid, j.target, j.before.digest)));
      }
      if !signed {
        assert end == Finish(kid, j, Conf(files, PutBack));
        ok := GiveBack(kid, j);
      } else {
        assert end == Finish(kid, j, Conf(files, Place));
        ok := PlaceOrRestore(kid, j);
      }
    }

    method PlaceOrRestore(kid: string, j: Job) returns (ok: bool)
      requires j.Rename?
      modifies this
      ensures Conf(files, Done(ok)) == Finish(kid, j, Conf(old(files), Place))
    {
      ghost var end := Finish(kid, j, Conf(files, Place));
      if j.private !in files { return false; }
      ok := RenameNoReplace(j.private, j.target);
      if ok { return; }
      assert end == Finish(kid, j, Conf(files, MoveBack));
      var back := RenameNoReplace(j.private, j.source);
      if back {
        assert end == Finish(kid, j, Conf(files, RestoreAtt));
        var _ := SetAttribute(j.source, j.sourceAtt);  // only what is back at the source
      }
      assert end == Finish(kid, j, Conf(files, Done(false)));
    }

    /** An admitted write, delete or rename from its first check to its result. */
    method Execute(kid: string, j: Job) returns (ok: bool)
      modifies this
      ensures Conf(files, Done(ok)) == Finish(kid, j, Conf(old(files), Begin))
    {
      ghost var end := Finish(kid, j, Conf(files, Begin));
      if SourceOf(j) in files && files[SourceOf(j)].Link? { return false; }
      match j {
        case Write(rid, target, private, digest, before) =>
          if private in files {
            assert end == Finish(kid, j, Conf(files, Create));
            assert end == Finish(kid, j, Conf(files, Done(false)));
            return false;
          }
          assert end == Finish(kid, j, Conf(files, Create));
          files := files[private := Reg(digest, None)];
          assert end == Finish(kid, j, Conf(files, Attest));
          var _ := SetAttribute(private, Some(Sealed(kid, rid, target, digest)));
          assert end == Finish(kid, j, Conf(files, Swap));
          ok := CasReplace(kid, j);
        case Delete(_, _, _, _) =>
          assert end == Finish(kid, j, Conf(files, Claim));
          ok := CasDelete(kid, j);
        case Rename(_, source, target, _, _, _, _, _) =>
          if source == target { return false; }
          if target in files && files[target].Link? { return false; }
          assert end == Finish(kid, j, Conf(files, Claim));
          ok := RenameProtocol(kid, j);
      }
    }

    method RecoverRename(ring: Ring, j: Job) returns (verdict: Verdict)
      requires j.Rename?
      modifies this
      ensures RConf(files, End(verdict)) == Recover(ring, j, RConf(old(files), Look))
    {
      ghost var end := Recover(ring, j, RConf(files, Look));
      if j.private in files {
        assert Reattested(ring, j, files) ==> end == Recover(ring, j, RConf(files, Aim));
        if Reattested(ring, j, files) && j.target !in files {
          assert end == Recover(ring, j, RConf(files, Forward));
          var placed := RenameNoReplace(j.private, j.target);
        } else {
          assert end == Recover(ring, j, RConf(files, Weigh));
          var ours := j.before.Present? && HasDigest(files, j.private, j.before.digest);
          assert end == Recover(ring, j, RConf(files, Back(ours)));
          var back := RenameNoReplace(j.private, j.source);
          if !back {
            assert end == Recover(ring, j, RConf(files, End(Unresolved)));
            return Unresolved;
          }
          if ours {
            assert end == Recover(ring, j, RConf(files, FixAtt));
            var fixed := SetAttribute(j.source, j.sourceAtt);
            if !fixed { return Unresolved; }
          }
        }
      } else {
        assert end == Recover(ring, j, RConf(files, Peek));
        if j.before.Present? && HasDigest(files, j.source, j.before.digest) {
          assert end == Recover(ring, j, RConf(files, Compare));
          if AttAt(files, j.source) != j.sourceAtt {
            assert end == Recover(ring, j, RConf(files, FixAtt));
            var fixed := SetAttribute(j.source, j.sourceAtt);
            if !fixed { return Unresolved; }
          }
        }
      }
      assert end == Recover(ring, j, RConf(files, See));
      var sourceNow := Observe(files, j.source);
      assert end == Recover(ring, j, RConf(files, Seen(sourceNow)));
      verdict := ClassifyRename(j, sourceNow, Observe(files, j.target));
      assert end == Recover(ring, j, RConf(files, End(verdict)));
    }
  }
}
