/** The version records shared by both version engines. */
module VersionTypes {
  import opened Wrappers

  /** `major[.minor[.build[.revision]]]`; an absent part is `None`, the source's `null`. */
  datatype Version = Version(major: nat, minor: Option<nat>, build: Option<nat>, revision: Option<nat>)

  /** How one part of a version changes. */
  datatype VersionPartUpdateRule =
    | LeaveUnchanged
    | LeaveUnchangedSetMissingToZero
    | Bump
    | Overwrite(overwriteTo: nat)
    | Remove

  datatype VersionUpdatePattern = VersionUpdatePattern(
    major: VersionPartUpdateRule,
    minor: VersionPartUpdateRule,
    build: VersionPartUpdateRule,
    revision: VersionPartUpdateRule)

  /** Either a literal replacement text or a four-slot pattern. */
  datatype VersionUpdateRule =
    | SetExplicitVersion(explicitVersion: string)
    | UsePattern(updatePattern: VersionUpdatePattern)

  /** A part is present only if every part before it is. */
  predicate HasNoGaps(v: Version) {
    (v.build.Some? ==> v.minor.Some?) && (v.revision.Some? ==> v.build.Some?)
  }

  /** The four parts, an absent one read as 0. */
  function PartValues(v: Version): seq<nat> {
    [v.major, v.minor.GetOr(0), v.build.GetOr(0), v.revision.GetOr(0)]
  }

  /** How many parts after `major` are present before the first absent one. */
  function PresentTailLength(v: Version): nat {
    if v.minor.None? then 0 else if v.build.None? then 1 else if v.revision.None? then 2 else 3
  }

  /** The natural order of versions, an absent part counting as 0. */
  predicate Precedes(v: Version, w: Version) {
    var a, b := PartValues(v), PartValues(w);
    a[0] < b[0]
    || (a[0] == b[0] && a[1] < b[1])
    || (a[0] == b[0] && a[1] == b[1] && a[2] < b[2])
    || (a[0] == b[0] && a[1] == b[1] && a[2] == b[2] && a[3] < b[3])
  }
}
