/** Seeding the permission and role catalogue: an upsert that converges from any starting state. */
module Seeding {
  import opened Prelude

  /** A declared role and the codes it must hold; the codes are a set, read in any order. */
  datatype RoleSpec = RoleSpec(name: string, permissions: seq<string>)

  predicate Distinct<T(==)>(s: seq<T>) {
    forall i, j | 0 <= i < j < |s| :: s[i] != s[j]
  }

  function Elements<T>(s: seq<T>): set<T> {
    set x | x in s
  }

  /** What the type system and the role dictionary guarantee of the declaration. */
  predicate WellDeclared(codes: seq<string>, roles: seq<RoleSpec>) {
    && (forall i, j | 0 <= i < j < |roles| :: roles[i].name != roles[j].name)
    && (forall i | 0 <= i < |roles| :: Distinct(roles[i].permissions))
    && (forall i | 0 <= i < |roles| :: Elements(roles[i].permissions) <= Elements(codes))
  }

  /** The links a role ends with: those it had, then the declared ones it lacked, each once. */
  ghost predicate Converges(before: seq<string>, declared: seq<string>, after: seq<string>) {
    && before <= after
    && Elements(after) == Elements(before) + Elements(declared)
    && (Distinct(before) ==> Distinct(after))
    && (Elements(declared) <= Elements(before) ==> after == before)
  }

  /** What a role had before; a role that did not exist had nothing. */
  function LinksOf(links: map<string, seq<string>>, role: string): seq<string> {
    if role in links then links[role] else []
  }

  /** Codes are unique, no role holds a link twice, and every link leads to a permission row. */
  predicate ValidRows(permissions: seq<string>, links: map<string, seq<string>>) {
    && Distinct(permissions)
    && forall role | role in links :: Distinct(links[role]) && Elements(links[role]) <= Elements(permissions)
  }

  class Catalogue {
    /** The permission rows, by code. */
    var permissions: seq<string>
    /** The role rows, by name, each with its permission links. */
    var links: map<string, seq<string>>

    predicate Valid()
      reads this
    {
      ValidRows(permissions, links)
    }

    constructor (permissions: seq<string>, links: map<string, seq<string>>)
      ensures this.permissions == permissions && this.links == links
    {
      this.permissions, this.links := permissions, links;
    }

    /** Add the codes that are missing. */
    method SeedPermissions(codes: seq<string>)
      modifies `permissions
      ensures Converges(old(permissions), codes, permissions)
    {
      hide Converges;
      ConvergesStart(permissions);
      assert codes[..0] == [];
      var k := 0;
      while k < |codes|
        invariant k <= |codes|
        invariant Converges(old(permissions), codes[..k], permissions)
      {
        assert codes[..k + 1] == codes[..k] + [codes[k]];
        ConvergesStep(old(permissions), codes[..k], permissions, codes[k]);
        if codes[k] !in permissions {
          permissions := permissions + [codes[k]];
        }
        k := k + 1;
      }
      assert codes[..k] == codes;
    }

    /** Create a missing role with its codes, or append to an existing one the codes it lacks. */
    method SeedRole(role: RoleSpec)
      requires Distinct(role.permissions)
      modifies `links
      ensures links.Keys == old(links).Keys + {role.name}
      ensures forall other | other in old(links) && other != role.name :: links[other] == old(links)[other]
      ensures Converges(LinksOf(old(links), role.name), role.permissions, links[role.name])
    {
      hide Converges;
      if role.name !in links {
        ConvergesFromNothing(role.permissions);
        links := links[role.name := role.permissions];
        return;
      }
      var before := links[role.name];
      var current := Elements(before);
      var row := before;
      ConvergesStart(before);
      assert role.permissions[..0] == [];
      var k := 0;
      while k < |role.permissions|
        invariant k <= |role.permissions| && links == old(links)
        invariant Converges(before, role.permissions[..k], row)
        invariant Elements(row) == current + Elements(role.permissions[..k])
      {
        var code := role.permissions[k];
        assert role.permissions[..k + 1] == role.permissions[..k] + [code];
        ElementsAppend(role.permissions[..k], code);
        ElementsAppend(row, code);
        ConvergesStep(before, role.permissions[..k], row, code);
        assert code !in role.permissions[..k];
        assert code in row <==> code in Elements(row);
        if code !in current {
          row := row + [code];
        }
        k := k + 1;
      }
      assert role.permissions[..k] == role.permissions;
      links := links[role.name := row];
    }

    /**
     * `seed_rbac`: from any valid catalogue, every declared permission and role is
     * there, each declared role holds its old links and the declared ones, other
     * rows are untouched, and nothing is removed or doubled.
     */
    method SeedRbac(codes: seq<string>, roles: seq<RoleSpec>)
      requires Valid() && WellDeclared(codes, roles)
      modifies this
      ensures Valid()
      ensures Seeded(old(permissions), old(links), codes, roles, permissions, links)
    {
      hide Converges, ValidRows, Settled, Progress;
      SeedPermissions(codes);
      NothingSeededYet(links, roles);
      var k := 0;
      while k < |roles|
        modifies `links
        invariant k <= |roles|
        invariant Progress(old(links), links, roles, k)
        invariant Settled(old(permissions), old(links), codes, roles) ==> links == old(links)
      {
        ghost var before := links;
        SeedRole(roles[k]);
        OneMoreRole(old(links), before, links, roles, k);
        if Settled(old(permissions), old(links), codes, roles) {
          RoleIsSettled(old(permissions), old(links), codes, roles, k, links[roles[k].name]);
          assert links == old(links);
        }
        k := k + 1;
      }
      ProgressReads(old(links), links, roles);
      StaysValid(old(permissions), old(links), codes, roles, permissions, links);
      if Settled(old(permissions), old(links), codes, roles) {
        CodesAreSettled(old(permissions), old(links), codes, roles, permissions);
      }
    }
  }

  /** What seeding does to a catalogue, whatever was in it before. */
  ghost predicate Seeded(permissions: seq<string>, links: map<string, seq<string>>, codes: seq<string>, roles: seq<RoleSpec>,
                         permissions': seq<string>, links': map<string, seq<string>>) {
    && Converges(permissions, codes, permissions')
    && (forall role :: role in links' <==> role in links || Named(roles, |roles|, role))
    && (forall i | 0 <= i < |roles| :: roles[i].name in links')
    && (forall i | 0 <= i < |roles| ::
          Converges(LinksOf(links, roles[i].name), roles[i].permissions, links'[roles[i].name]))
    && (forall other | other in links && !Named(roles, |roles|, other) :: links'[other] == links[other])
    && (Settled(permissions, links, codes, roles) ==> permissions' == permissions && links' == links)
  }

  /** The role is among the first k declared. */
  predicate Named(roles: seq<RoleSpec>, k: nat, role: string)
    requires k <= |roles|
  {
    exists i | 0 <= i < k :: roles[i].name == role
  }

  lemma NamedStep(roles: seq<RoleSpec>, k: nat)
    requires k < |roles|
    requires forall i, j | 0 <= i < j < |roles| :: roles[i].name != roles[j].name
    ensures forall role :: Named(roles, k + 1, role) <==> Named(roles, k, role) || role == roles[k].name
    ensures !Named(roles, k, roles[k].name)
  {
    forall role | Named(roles, k, role)
      ensures Named(roles, k + 1, role)
    {
      var i :| 0 <= i < k && roles[i].name == role;
      assert i < k + 1;
    }
    assert roles[k].name == roles[k].name && k < k + 1;
  }

  /** The first k declared roles are seeded; the others are as before. */
  ghost predicate Progress(before: map<string, seq<string>>, now: map<string, seq<string>>, roles: seq<RoleSpec>, k: nat)
    requires k <= |roles|
  {
    && (forall role :: role in now <==> role in before || Named(roles, k, role))
    && (forall i | 0 <= i < k :: Named(roles, k, roles[i].name))
    && (forall i | 0 <= i < k :: Converges(LinksOf(before, roles[i].name), roles[i].permissions, now[roles[i].name]))
    && (forall other | other in before && !Named(roles, k, other) :: now[other] == before[other])
  }

  lemma NothingSeededYet(links: map<string, seq<string>>, roles: seq<RoleSpec>)
    ensures Progress(links, links, roles, 0)
  {
  }

  lemma OneMoreRole(before: map<string, seq<string>>, now: map<string, seq<string>>, next: map<string, seq<string>>, roles: seq<RoleSpec>, k: nat)
    requires k < |roles| && Progress(before, now, roles, k)
    requires forall i, j | 0 <= i < j < |roles| :: roles[i].name != roles[j].name
    requires next.Keys == now.Keys + {roles[k].name}
    requires forall other | other in now && other != roles[k].name :: next[other] == now[other]
    requires Converges(LinksOf(now, roles[k].name), roles[k].permissions, next[roles[k].name])
    ensures Progress(before, next, roles, k + 1)
    ensures LinksOf(now, roles[k].name) == LinksOf(before, roles[k].name)
  {
    hide Converges, Named, Elements;
    NamedStep(roles, k);
    forall i | 0 <= i < k
      ensures next[roles[i].name] == now[roles[i].name]
    {
    }
  }

  lemma ProgressReads(before: map<string, seq<string>>, now: map<string, seq<string>>, roles: seq<RoleSpec>)
    requires Progress(before, now, roles, |roles|)
    ensures forall role :: role in now <==> role in before || Named(roles, |roles|, role)
    ensures forall i | 0 <= i < |roles| :: roles[i].name in now
    ensures forall i | 0 <= i < |roles| :: Converges(LinksOf(before, roles[i].name), roles[i].permissions, now[roles[i].name])
    ensures forall other | other in before && !Named(roles, |roles|, other) :: now[other] == before[other]
  {
    hide Converges;
  }

  lemma StaysValid(codesBefore: seq<string>, before: map<string, seq<string>>, codes: seq<string>, roles: seq<RoleSpec>,
                   permissions: seq<string>, now: map<string, seq<string>>)
    requires ValidRows(codesBefore, before) && WellDeclared(codes, roles)
    requires Converges(codesBefore, codes, permissions) && Progress(before, now, roles, |roles|)
    ensures ValidRows(permissions, now)
  {
    forall role | role in now
      ensures Distinct(now[role]) && Elements(now[role]) <= Elements(permissions)
    {
      if i :| 0 <= i < |roles| && roles[i].name == role {
        SeededLinksAreValid(LinksOf(before, role), roles[i].permissions, now[role], codesBefore, codes, permissions);
      }
    }
  }

  lemma SeededLinksAreValid(had: seq<string>, declared: seq<string>, has: seq<string>, codesBefore: seq<string>, codes: seq<string>, permissions: seq<string>)
    requires Converges(had, declared, has) && Converges(codesBefore, codes, permissions)
    requires Distinct(had) && Elements(had) <= Elements(codesBefore) && Elements(declared) <= Elements(codes)
    ensures Distinct(has) && Elements(has) <= Elements(permissions)
  {
  }

  lemma RoleIsSettled(permissions: seq<string>, links: map<string, seq<string>>, codes: seq<string>, roles: seq<RoleSpec>, k: nat, after: seq<string>)
    requires Settled(permissions, links, codes, roles) && k < |roles|
    requires Converges(LinksOf(links, roles[k].name), roles[k].permissions, after)
    ensures roles[k].name in links && after == links[roles[k].name]
  {
  }

  lemma CodesAreSettled(permissions: seq<string>, links: map<string, seq<string>>, codes: seq<string>, roles: seq<RoleSpec>, after: seq<string>)
    requires Settled(permissions, links, codes, roles) && Converges(permissions, codes, after)
    ensures after == permissions
  {
  }

  /** Nothing declared is missing. */
  predicate Settled(permissions: seq<string>, links: map<string, seq<string>>, codes: seq<string>, roles: seq<RoleSpec>) {
    && Elements(codes) <= Elements(permissions)
    && forall i | 0 <= i < |roles| ::
         roles[i].name in links && Elements(roles[i].permissions) <= Elements(links[roles[i].name])
  }

  lemma ElementsAppend<T>(s: seq<T>, x: T)
    ensures Elements(s + [x]) == Elements(s) + {x}
    ensures Distinct(s) && x !in s ==> Distinct(s + [x])
  {
    assert forall y :: y in s + [x] <==> y in s || y == x;
  }

  lemma ConvergesStart(before: seq<string>)
    ensures Converges(before, [], before)
  {
  }

  lemma ConvergesStep(before: seq<string>, declared: seq<string>, row: seq<string>, code: string)
    requires Converges(before, declared, row)
    ensures Converges(before, declared + [code], if code in row then row else row + [code])
  {
    ElementsAppend(declared, code);
    ElementsAppend(row, code);
    assert code in Elements(declared + [code]);
    assert code in before ==> code in row;
  }

  lemma ConvergesFromNothing(declared: seq<string>)
    requires Distinct(declared)
    ensures Converges([], declared, declared)
  {
    if declared != [] {
      assert declared[0] in Elements(declared);
    }
  }

  /** Where seeding leaves a catalogue, nothing declared is missing. */
  lemma SeededIsSettled(permissions: seq<string>, links: map<string, seq<string>>, codes: seq<string>, roles: seq<RoleSpec>,
                        permissions': seq<string>, links': map<string, seq<string>>)
    requires Seeded(permissions, links, codes, roles, permissions', links')
    ensures Settled(permissions', links', codes, roles)
  {
  }

  /** Seeding twice is seeding once: from any catalogue, the second run changes nothing. */
  lemma SeedingIsIdempotent(permissions: seq<string>, links: map<string, seq<string>>, codes: seq<string>, roles: seq<RoleSpec>,
                            once: seq<string>, linksOnce: map<string, seq<string>>,
                            twice: seq<string>, linksTwice: map<string, seq<string>>)
    requires Seeded(permissions, links, codes, roles, once, linksOnce)
    requires Seeded(once, linksOnce, codes, roles, twice, linksTwice)
    ensures twice == once && linksTwice == linksOnce
  {
    hide Converges;
    SeededIsSettled(permissions, links, codes, roles, once, linksOnce);
  }

  method SeedTwice(catalogue: Catalogue, codes: seq<string>, roles: seq<RoleSpec>)
    returns (once: seq<string>, linksOnce: map<string, seq<string>>)
    requires catalogue.Valid() && WellDeclared(codes, roles)
    modifies catalogue
    ensures Seeded(old(catalogue.permissions), old(catalogue.links), codes, roles, once, linksOnce)
    ensures catalogue.permissions == once && catalogue.links == linksOnce
  {
    hide Seeded;
    ghost var permissions, links := catalogue.permissions, catalogue.links;
    catalogue.SeedRbac(codes, roles);
    once, linksOnce := catalogue.permissions, catalogue.links;
    catalogue.SeedRbac(codes, roles);
    SeedingIsIdempotent(permissions, links, codes, roles, once, linksOnce, catalogue.permissions, catalogue.links);
  }
}
