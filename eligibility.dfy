/** The constraint record of a @Test declaration and Runner.enabled, the
    decision whether the detected host satisfies it. */
module Eligibility {
  import opened Environment

  /** The fields of one @Test annotation that decide eligibility. An empty
      sequence leaves that fact unconstrained; jvmVer is read at its first
      and last element only. */
  datatype Test = Test(enabled: bool, os: seq<Os>, arch: seq<Arch>, jvm: seq<Jvm>, jvmVer: seq<int>)

  /** The version window [jvmVer[0], jvmVer[last]] holds v, or there is none. */
  predicate InVersionWindow(jvmVer: seq<int>, v: int)
  {
    |jvmVer| == 0 || (jvmVer[0] <= v && v <= jvmVer[|jvmVer| - 1])
  }

  /** Runner.enabled: every constraint must hold; each is a membership test
      that an empty list waives. */
  function Enabled(t: Test, env: Env): (r: bool)
    ensures r <==> && t.enabled
                   && (|t.os| == 0 || env.os in t.os)
                   && (|t.arch| == 0 || env.arch in t.arch)
                   && (|t.jvm| == 0 || env.jvm in t.jvm)
                   && InVersionWindow(t.jvmVer, env.version)
  {
    if !t.enabled then false
    else if |t.os| > 0 && env.os !in t.os then false
    else if |t.arch| > 0 && env.arch !in t.arch then false
    else if |t.jvm| > 0 && env.jvm !in t.jvm then false
    else if |t.jvmVer| > 0 && (env.version < t.jvmVer[0] || env.version > t.jvmVer[|t.jvmVer| - 1]) then false
    else true
  }

  /** A disabled test is never eligible. */
  lemma DisabledNeverEnabled(t: Test, env: Env)
    requires !t.enabled
    ensures !Enabled(t, env)
  {
  }

  /** An enabled test without constraints is eligible on every host. */
  lemma UnconstrainedAlwaysEnabled(env: Env)
    ensures Enabled(Test(true, [], [], [], []), env)
  {
  }

  /** The version bounds are inclusive: the window's two ends pass and the
      values just outside fail, everything else being unconstrained. */
  lemma VersionBoundsInclusive(jvmVer: seq<int>, env: Env)
    requires |jvmVer| > 0 && jvmVer[0] <= jvmVer[|jvmVer| - 1]
    ensures var t := Test(true, [], [], [], jvmVer);
            && Enabled(t, env.(version := jvmVer[0]))
            && Enabled(t, env.(version := jvmVer[|jvmVer| - 1]))
            && !Enabled(t, env.(version := jvmVer[0] - 1))
            && !Enabled(t, env.(version := jvmVer[|jvmVer| - 1] + 1))
  {
  }

  /** Only the first and last version entries matter. */
  lemma OnlyVersionEndsMatter(t: Test, u: Test, env: Env)
    requires t.(jvmVer := u.jvmVer) == u
    requires |t.jvmVer| == |u.jvmVer| == 0
             || (|t.jvmVer| > 0 && |u.jvmVer| > 0 && t.jvmVer[0] == u.jvmVer[0]
                 && t.jvmVer[|t.jvmVer| - 1] == u.jvmVer[|u.jvmVer| - 1])
    ensures Enabled(t, env) == Enabled(u, env)
  {
  }
}
