/** What the TwinRX driver writes to the two synthesizers of one stage when its
    settings are resolved, for every choice of sources, proved to be the tuning
    that Oscillators describes when the second channel is disabled. */
module TwinrxDriver {
  import opened Common
  import opened Oscillators

  datatype LoSource = LoInternal | LoExternal | LoCompanion | LoDisabled | LoReimport

  datatype Mapping = MappingNone | MappingCh0 | MappingCh1 | MappingShared

  /** Which channels drive a synthesizer. */
  function MappingOf(ch0: bool, ch1: bool): Mapping {
    if ch0 && ch1 then MappingShared else if ch0 then MappingCh0 else if ch1 then MappingCh1 else MappingNone
  }

  predicate Own(source: LoSource) {
    source.LoInternal? || source.LoReimport?
  }

  /** A disabled channel takes the synthesizer the other one does not. */
  predicate Hopping(src0: LoSource, src1: LoSource) {
    || (src0.LoDisabled? && (Own(src1) || src1.LoCompanion?))
    || (src1.LoDisabled? && (Own(src0) || src0.LoCompanion?))
  }

  /** The mapping of the synthesizer of channel 0. */
  function Mapping0(src0: LoSource, src1: LoSource): Mapping {
    MappingOf(Own(src0) || (src0.LoDisabled? && Own(src1)),
              src1.LoCompanion? || (src1.LoDisabled? && src0.LoCompanion?))
  }

  function Mapping1(src0: LoSource, src1: LoSource): Mapping {
    MappingOf(src0.LoCompanion? || (src0.LoDisabled? && src1.LoCompanion?),
              Own(src1) || (src1.LoDisabled? && Own(src0)))
  }

  /** How far a synthesizer not in use is tuned away. */
  const AWAY := 100_000_000.0

  /** The driver's object for one stage: what the channels want, whether that
      changed since the last time, and what the synthesizers were set to. */
  class Settings {
    var wanted0: real
    var wanted1: real
    var dirty0: bool
    var dirty1: bool
    var synth0: real
    var synth1: real

    /** A new device wants the same on both channels, and both are dirty. */
    constructor (v: real)
      ensures wanted0 == wanted1 == v && dirty0 && dirty1
    {
      wanted0, wanted1, dirty0, dirty1 := v, v, true, true;
      synth0, synth1 := 0.0, 0.0;
    }

    function AsStage(): Stage
      reads this
    {
      Stage(synth0, synth1, wanted0, wanted1)
    }

    predicate Clean()
      reads this
    {
      !dirty0 && !dirty1
    }

    /** Assignment to a tracked value marks it as dirty only if it differs. */
    method Want0(v: real)
      modifies this
      ensures AsStage() == old(AsStage()).(active := v)
      ensures dirty0 == (old(dirty0) || v != old(wanted0)) && dirty1 == old(dirty1)
    {
      if v != wanted0 {
        dirty0 := true;
        wanted0 := v;
      }
    }

    method Want1(v: real)
      modifies this
      ensures AsStage() == old(AsStage()).(unused := v)
      ensures dirty1 == (old(dirty1) || v != old(wanted1)) && dirty0 == old(dirty0)
    {
      if v != wanted1 {
        dirty1 := true;
        wanted1 := v;
      }
    }

    /** Resolving writes the synthesizers and leaves both values clean. With one
        channel disabled only what changed is written; otherwise what each drives
        is, a shared one for channel 0 with the other tuned away, and an unused
        one of an external channel away from its frequency. */
    method Resolve(src0: LoSource, src1: LoSource)
      modifies this
      ensures Clean() && wanted0 == old(wanted0) && wanted1 == old(wanted1)
      ensures Hopping(src0, src1) && !src0.LoDisabled? ==>
        var source := if src0.LoCompanion? then Companion else Internal;
        AsStage() == Written(old(AsStage()), source, old(dirty0), old(dirty1))
      ensures Own(src0) && Own(src1) ==> synth0 == wanted0 && synth1 == wanted1
      ensures var (w0, w1, s0, s1) := (wanted0, wanted1, old(synth0), old(synth1));
              var new0 := if old(dirty0) then Some(w0) else None;
              var new1 := if old(dirty1) then Some(w1) else None;
              (synth0, synth1) == match src0
                case LoInternal | LoReimport => (
                  match src1
                  case LoInternal | LoReimport => (w0, w1)
                  case LoExternal => (w0, w1 + 100_000_000.0)
                  case LoCompanion => (w0, w0 + 100_000_000.0)
                  case LoDisabled => (new0.Or(s0), new1.Or(s1)))
                case LoExternal => (
                  match src1
                  case LoInternal | LoReimport => (w0 + 100_000_000.0, w1)
                  case LoExternal => (w0 + 100_000_000.0, w1 + 100_000_000.0)
                  case LoCompanion => (w1, s1)
                  case LoDisabled => (w0 + 100_000_000.0, s1))
                case LoCompanion => (
                  match src1
                  case LoInternal | LoReimport => (w0 + 100_000_000.0, w0)
                  case LoExternal => (s0, w0)
                  case LoCompanion => (w1, w0)
                  case LoDisabled => (new1.Or(s0), new0.Or(s1)))
                case LoDisabled => (
                  match src1
                  case LoInternal | LoReimport => (new0.Or(s0), new1.Or(s1))
                  case LoExternal => (s0, w1 + 100_000_000.0)
                  case LoCompanion => (new1.Or(s0), new0.Or(s1))
                  case LoDisabled => (s0, s1))
    {
      ResolveChannel0(src0, src1);
      ResolveChannel1(src0, src1);
      dirty0, dirty1 := false, false;
    }

    method ResolveChannel0(src0: LoSource, src1: LoSource)
      modifies this`synth0, this`synth1
      ensures Hopping(src0, src1) && !src0.LoDisabled? && dirty0 ==>
        if src0.LoCompanion? then synth1 == wanted0 && synth0 == old(synth0)
        else synth0 == wanted0 && synth1 == old(synth1)
      ensures Hopping(src0, src1) && !src0.LoDisabled? && !dirty0 ==> synth0 == old(synth0) && synth1 == old(synth1)
      ensures Own(src0) && Own(src1) ==> synth0 == wanted0
      ensures var (w, s0, s1) := (wanted0, old(synth0), old(synth1));
              var changed := if dirty0 then Some(w) else None;
              (synth0, synth1) == match src0
                case LoInternal | LoReimport => (
                  match src1
                  case LoInternal | LoReimport | LoExternal => (w, s1)
                  case LoCompanion => (w, w + 100_000_000.0)
                  case LoDisabled => (changed.Or(s0), s1))
                case LoExternal => (
                  match src1
                  case LoCompanion => (s0, s1)
                  case _ => (w + 100_000_000.0, s1))
                case LoCompanion => (
                  match src1
                  case LoInternal | LoReimport => (w + 100_000_000.0, w)
                  case LoExternal | LoCompanion => (s0, w)
                  case LoDisabled => (s0, changed.Or(s1)))
                case LoDisabled => (
                  match src1
                  case LoInternal | LoReimport => (changed.Or(s0), s1)
                  case LoCompanion => (s0, changed.Or(s1))
                  case LoExternal | LoDisabled => (s0, s1))
    {
      var map0, map1 := Mapping0(src0, src1), Mapping1(src0, src1);
      if src0.LoExternal? {
        if map0 != MappingCh1 {
          synth0 := wanted0 + AWAY;
        }
      } else {
        var update := !Hopping(src0, src1) || dirty0;
        if map0 == MappingCh0 && update {
          synth0 := wanted0;
        } else if map1 == MappingCh0 && update {
          synth1 := wanted0;
        } else if map0 == MappingShared || map1 == MappingShared {
          if map0 == MappingShared {
            synth0, synth1 := wanted0, wanted0 + AWAY;
          } else {
            synth1, synth0 := wanted0, wanted0 + AWAY;
          }
        }
      }
    }

    method ResolveChannel1(src0: LoSource, src1: LoSource)
      modifies this`synth0, this`synth1
      ensures Hopping(src0, src1) && !src0.LoDisabled? && dirty1 ==>
        if src0.LoCompanion? then synth0 == wanted1 && synth1 == old(synth1)
        else synth1 == wanted1 && synth0 == old(synth0)
      ensures Hopping(src0, src1) && !src0.LoDisabled? && !dirty1 ==> synth0 == old(synth0) && synth1 == old(synth1)
      ensures Own(src0) && Own(src1) ==> synth1 == wanted1 && synth0 == old(synth0)
      ensures var (w, s0, s1) := (wanted1, old(synth0), old(synth1));
              var changed := if dirty1 then Some(w) else None;
              (synth0, synth1) == match src0
                case LoInternal | LoReimport => (
                  match src1
                  case LoInternal | LoReimport => (s0, w)
                  case LoExternal => (s0, w + 100_000_000.0)
                  case LoCompanion => (s0, s1)
                  case LoDisabled => (s0, changed.Or(s1)))
                case LoExternal => (
                  match src1
                  case LoInternal | LoReimport => (s0, w)
                  case LoExternal => (s0, w + 100_000_000.0)
                  case LoCompanion => (w, s1)
                  case LoDisabled => (s0, s1))
                case LoCompanion => (
                  match src1
                  case LoInternal | LoReimport | LoExternal => (s0, s1)
                  case LoCompanion => (w, s1)
                  case LoDisabled => (changed.Or(s0), s1))
                case LoDisabled => (
                  match src1
                  case LoInternal | LoReimport => (s0, changed.Or(s1))
                  case LoExternal => (s0, w + 100_000_000.0)
                  case LoCompanion => (changed.Or(s0), s1)
                  case LoDisabled => (s0, s1))
    {
      var map0, map1 := Mapping0(src0, src1), Mapping1(src0, src1);
      if src1.LoExternal? {
        if map1 != MappingCh0 {
          synth1 := wanted1 + AWAY;
        }
      } else {
        var update := !Hopping(src0, src1) || dirty1;
        if map0 == MappingCh1 && update {
          synth0 := wanted1;
        } else if map1 == MappingCh1 && update {
          synth1 := wanted1;
        } else if (map0 == MappingShared || map1 == MappingShared) && src0.LoExternal? {
          // channel 0 shares no synthesizer when its source is external
          assert false;
        }
      }
    }

    /** Making the device and tuning the first channel, before any hopping. */
    method Start(first: real)
      requires wanted0 == wanted1 && dirty0 && dirty1
      modifies this
      ensures Clean() && AsStage() == TuneActive(AtRest(old(wanted0)), Internal, first)
    {
      Resolve(LoInternal, LoInternal);
      Resolve(LoInternal, LoDisabled);
      Want0(first);
      Resolve(LoInternal, LoDisabled);
    }

    /** One hop: the source of the first channel is set, then the second channel is
        tuned for the next hop and the first for this one. */
    method HopOnce(source: Source, next: real, now: real)
      requires Clean()
      modifies this
      ensures Clean() && AsStage() == TuneActive(TuneUnused(old(AsStage()), source, next), source, now)
    {
      var src0 := if source.Companion? then LoCompanion else LoInternal;
      Resolve(src0, LoDisabled);
      Want1(next);
      Resolve(src0, LoDisabled);
      Want0(now);
      Resolve(src0, LoDisabled);
    }
  }

  /** The stage after the values that changed are written. */
  function Written(s: Stage, source: Source, dirty0: bool, dirty1: bool): Stage {
    var t :=
      if !dirty0 then s
      else if source.Internal? then s.(first := s.active) else s.(second := s.active);
    if !dirty1 then t
    else if source.Internal? then t.(second := t.unused) else t.(first := t.unused)
  }
}
