/** Names derived from a uuid: the remote stream variable (tempVariable) and
    the temporary file (tempFileName), winrmcp/cp.go:314-334. The uuid text is
    an input; None stands for a failed uuid.NewV4. */
module Naming {
  import opened Errors

  /** s with every dash removed. */
  function RemoveDashes(s: string): (r: string)
    ensures |r| <= |s|
    ensures forall i :: 0 <= i < |r| ==> r[i] != '-'
  {
    if |s| == 0 then ""
    else if s[0] == '-' then RemoveDashes(s[1..])
    else [s[0]] + RemoveDashes(s[1..])
  }

  /** prefix followed by the uuid text with every '-' removed. */
  function TempVariable(prefix: string, uuid: Option<string>): Result<string>
  {
    match uuid
    case None => Err(NameFailed)
    case Some(u) => Ok(prefix + RemoveDashes(u))
  }

  /** The temp file name: "winrmcp-", then the uuid text, then ".tmp". */
  function TempFileName(uuid: Option<string>): Result<string>
  {
    match uuid
    case None => Err(NameFailed)
    case Some(u) => Ok("winrmcp-" + u + ".tmp")
  }

  /** The text of a version-4 uuid as the generator prints it: 8-4-4-4-12
      hexadecimal digits separated by dashes. */
  predicate CanonicalUuid(u: string)
  {
    && |u| == 36
    && u[8] == '-' && u[13] == '-' && u[18] == '-' && u[23] == '-'
    && forall i :: 0 <= i < 36 && i != 8 && i != 13 && i != 18 && i != 23 ==> IsHex(u[i])
  }

  predicate IsHex(c: char)
  {
    '0' <= c <= '9' || 'a' <= c <= 'f' || 'A' <= c <= 'F'
  }

  predicate NoDash(s: string)
  {
    forall i :: 0 <= i < |s| ==> s[i] != '-'
  }

  // ---- RemoveDashes is the dash filter ----

  /** Dash-free text is left as it is. */
  lemma {:induction false} RemoveDashesKeepsDashFree(s: string)
    requires NoDash(s)
    ensures RemoveDashes(s) == s
    decreases |s|
  {
    if |s| > 0 {
      assert NoDash(s[1..]);
      RemoveDashesKeepsDashFree(s[1..]);
      assert s == [s[0]] + s[1..];
    }
  }

  /** Removing dashes distributes over concatenation. */
  lemma {:induction false} RemoveDashesAppend(a: string, b: string)
    ensures RemoveDashes(a + b) == RemoveDashes(a) + RemoveDashes(b)
    decreases |a|
  {
    if |a| == 0 {
      assert a + b == b;
    } else {
      assert (a + b)[0] == a[0];
      assert (a + b)[1..] == a[1..] + b;
      RemoveDashesAppend(a[1..], b);
    }
  }

  /** The variable name starts with the prefix and its uuid part has no dash. */
  lemma TempVariableShape(prefix: string, u: string)
    ensures TempVariable(prefix, Some(u)).Ok?
    ensures var r := TempVariable(prefix, Some(u)).value;
      |prefix| <= |r| && r[..|prefix|] == prefix && NoDash(r[|prefix|..])
  {
    var r := TempVariable(prefix, Some(u)).value;
    assert r[|prefix|..] == RemoveDashes(u);
  }

  /** From i on, text whose first dash is at j loses that dash and keeps what
      precedes it. */
  lemma DashAt(u: string, i: nat, j: nat)
    requires i <= j < |u| && u[j] == '-' && NoDash(u[i..j])
    ensures RemoveDashes(u[i..]) == u[i..j] + RemoveDashes(u[j + 1..])
  {
    var rest := u[j..];
    assert u[i..] == u[i..j] + rest;
    assert rest[1..] == u[j + 1..];
    RemoveDashesAppend(u[i..j], rest);
    RemoveDashesKeepsDashFree(u[i..j]);
  }

  /** The characters of a canonical uuid between from and to hold no dash. */
  lemma GroupHasNoDash(u: string, from: nat, to: nat)
    requires CanonicalUuid(u) && from <= to <= 36
    requires !(from <= 8 < to) && !(from <= 13 < to) && !(from <= 18 < to) && !(from <= 23 < to)
    ensures NoDash(u[from..to])
  {
    forall j | 0 <= j < to - from
      ensures u[from..to][j] != '-'
    {
      assert IsHex(u[from + j]);
    }
  }

  /** Without the dashes a canonical uuid is its five groups run together. */
  lemma UuidWithoutDashes(u: string)
    requires CanonicalUuid(u)
    ensures RemoveDashes(u) == u[0..8] + (u[9..13] + (u[14..18] + (u[19..23] + u[24..])))
  {
    GroupHasNoDash(u, 0, 8);
    GroupHasNoDash(u, 9, 13);
    GroupHasNoDash(u, 14, 18);
    GroupHasNoDash(u, 19, 23);
    GroupHasNoDash(u, 24, 36);
    JoinGroups(u);
  }

  /** Dash-free groups separated by single dashes at 8, 13, 18 and 23. */
  lemma JoinGroups(u: string)
    requires |u| == 36 && u[8] == '-' && u[13] == '-' && u[18] == '-' && u[23] == '-'
    requires NoDash(u[0..8]) && NoDash(u[9..13]) && NoDash(u[14..18]) && NoDash(u[19..23]) && NoDash(u[24..36])
    ensures RemoveDashes(u) == u[0..8] + (u[9..13] + (u[14..18] + (u[19..23] + u[24..])))
  {
    assert u[0..] == u;
    DashAt(u, 0, 8);
    DashAt(u, 9, 13);
    DashAt(u, 14, 18);
    DashAt(u, 19, 23);
    assert u[24..] == u[24..36];
    RemoveDashesKeepsDashFree(u[24..]);
  }

  /** Two canonical uuids give the same variable name only if they are equal,
      so removing the dashes keeps variable names as unique as the uuids. */
  lemma TempVariableInjective(prefix: string, u: string, v: string)
    requires CanonicalUuid(u) && CanonicalUuid(v)
    requires TempVariable(prefix, Some(u)) == TempVariable(prefix, Some(v))
    ensures u == v
  {
    UuidWithoutDashes(u);
    UuidWithoutDashes(v);
    var su, sv := RemoveDashes(u), RemoveDashes(v);
    assert (prefix + su)[|prefix|..] == su;
    assert (prefix + sv)[|prefix|..] == sv;
    assert su == sv;
    forall i | 0 <= i < 36
      ensures u[i] == v[i]
    {
      if i < 8 {
        assert su[i] == u[i] && sv[i] == v[i];
      } else if 8 < i < 13 {
        assert su[i - 1] == u[i] && sv[i - 1] == v[i];
      } else if 13 < i < 18 {
        assert su[i - 2] == u[i] && sv[i - 2] == v[i];
      } else if 18 < i < 23 {
        assert su[i - 3] == u[i] && sv[i - 3] == v[i];
      } else if 23 < i {
        assert su[i - 4] == u[i] && sv[i - 4] == v[i];
      }
    }
  }

  /** The file name is "winrmcp-", the uuid, ".tmp"; distinct uuids give
      distinct names. */
  lemma TempFileNameShape(u: string, v: string)
    ensures TempFileName(Some(u)).Ok?
    ensures var r := TempFileName(Some(u)).value;
      |r| == |u| + 12 && r[..8] == "winrmcp-" && r[8..|r| - 4] == u && r[|r| - 4..] == ".tmp"
    ensures TempFileName(Some(u)) == TempFileName(Some(v)) ==> u == v
  {
    var r, s := TempFileName(Some(u)).value, TempFileName(Some(v)).value;
    assert r[8..|r| - 4] == u;
    assert s[8..|s| - 4] == v;
  }

  /** A failed uuid generation is an error, for both names. */
  lemma NamesNeedUuid(prefix: string, uuid: Option<string>)
    ensures TempVariable(prefix, uuid).Err? <==> uuid.None?
    ensures TempFileName(uuid).Err? <==> uuid.None?
  {
  }
}
