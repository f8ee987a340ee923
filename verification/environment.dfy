/** Scoped variables (environment/environment.go). Go links `*Environment`
    records through their `enclosing` pointers; here every frame lives in a
    store (a sequence, so a frame's id is its index) and names its enclosing
    frame by id. An enclosing frame is always older than the frames it
    encloses, which makes every chain finite. Frames are never removed, so a
    closure's frame id stays meaningful. */
module Environment {
  import opened Options
  import opened Tokens
  import LoxError
  import opened Values

  type Diagnostic = LoxError.Diagnostic

  /** One `Environment`: its bindings and its enclosing frame. */
  datatype Frame = Frame(vars: map<string, Value>, parent: Option<nat>)

  /** Every enclosing frame is older than the frame it encloses. */
  predicate Linked(frames: seq<Frame>) {
    forall i :: 0 <= i < |frames| && frames[i].parent.Some? ==> frames[i].parent.value < i
  }

  /** Every function value stored in a frame closes over an existing frame. */
  predicate Closed(frames: seq<Frame>) {
    forall i, name :: 0 <= i < |frames| && name in frames[i].vars ==> Refers(frames[i].vars[name], |frames|)
  }

  predicate Valid(frames: seq<Frame>) {
    Linked(frames) && Closed(frames)
  }

  /** The result of a lookup: the value found, or the runtime error. */
  datatype Lookup<T> = Found(value: T) | Unbound(error: Diagnostic)

  /** The error for a name bound nowhere in the chain. */
  function Undefined(name: Token): (d: Diagnostic)
    ensures d == LoxError.RuntimeError(name, "Undefined variable '" + name.lexeme + "'.")
  {
    LoxError.RuntimeError(name, "Undefined variable '" + name.lexeme + "'.")
  }

  /** `NewEnvironment`: a fresh empty frame enclosed by `enclosing`. */
  function NewEnvironment(frames: seq<Frame>, enclosing: Option<nat>): (r: (seq<Frame>, nat))
    requires Valid(frames)
    requires enclosing.Some? ==> enclosing.value < |frames|
    ensures Valid(r.0) && r.1 == |frames| && |r.0| == |frames| + 1
    ensures r.0[..|frames|] == frames
    ensures r.0[r.1] == Frame(map[], enclosing)
  {
    var grown := frames + [Frame(map[], enclosing)];
    assert forall i :: 0 <= i < |frames| ==> grown[i] == frames[i];
    (grown, |frames|)
  }

  /** The ids of the frames a lookup from `env` visits, innermost first. */
  function Chain(frames: seq<Frame>, env: nat): (c: seq<nat>)
    requires Linked(frames) && env < |frames|
    ensures |c| >= 1 && c[0] == env
    ensures forall k :: 0 <= k < |c| ==> c[k] < |frames|
    decreases env
  {
    var f := frames[env];
    if f.parent.Some? then [env] + Chain(frames, f.parent.value) else [env]
  }

  /** The frame whose binding of `name` a lookup from `env` sees: the first
      frame on the chain that binds it. */
  function Owner(frames: seq<Frame>, env: nat, name: string): (o: Option<nat>)
    requires Linked(frames) && env < |frames|
    ensures o.Some? ==> o.value < |frames| && name in frames[o.value].vars
    decreases env
  {
    var f := frames[env];
    if name in f.vars then Some(env)
    else if f.parent.Some? then Owner(frames, f.parent.value, name)
    else None
  }

  /** No frame of the id list `c` binds `name`. */
  predicate FreeOn(frames: seq<Frame>, c: seq<nat>, name: string) {
    forall k :: 0 <= k < |c| && c[k] < |frames| ==> name !in frames[c[k]].vars
  }

  /** `Owner` is the first frame on the chain that binds the name, and there
      is none exactly when no frame on the chain binds it. */
  lemma {:induction false} OwnerIsFirst(frames: seq<Frame>, env: nat, name: string)
    requires Linked(frames) && env < |frames|
    ensures Owner(frames, env, name).None? <==> FreeOn(frames, Chain(frames, env), name)
    ensures Owner(frames, env, name).Some? ==>
              exists k :: 0 <= k < |Chain(frames, env)| && Chain(frames, env)[k] == Owner(frames, env, name).value
                          && FreeOn(frames, Chain(frames, env)[..k], name)
    decreases env
  {
    var c := Chain(frames, env);
    var f := frames[env];
    if name in f.vars {
      assert c[0] == env && name in frames[c[0]].vars;
      assert c[..0] == [];
    } else if f.parent.Some? {
      var p := f.parent.value;
      OwnerIsFirst(frames, p, name);
      var d := Chain(frames, p);
      assert c == [env] + d;
      assert Owner(frames, env, name) == Owner(frames, p, name);
      if Owner(frames, env, name).None? {
        forall k | 0 <= k < |c| && c[k] < |frames|
          ensures name !in frames[c[k]].vars
        {
          if k > 0 {
            assert c[k] == d[k - 1];
          }
        }
      } else {
        var o := Owner(frames, env, name).value;
        var k :| 0 <= k < |d| && d[k] == o && FreeOn(frames, d[..k], name);
        assert c[k + 1] == o;
        var prefix := c[..k + 1];
        forall j | 0 <= j < |prefix| && prefix[j] < |frames|
          ensures name !in frames[prefix[j]].vars
        {
          if j > 0 {
            assert prefix[j] == d[..k][j - 1];
          }
        }
      }
      if FreeOn(frames, c, name) {
        forall k | 0 <= k < |d| && d[k] < |frames|
          ensures name !in frames[d[k]].vars
        {
          assert d[k] == c[k + 1];
        }
      }
    } else {
      assert c == [env];
    }
  }

  /** `Define`: bind `name` in frame `env`, replacing any binding it has
      there; no other frame changes. */
  function Define(frames: seq<Frame>, env: nat, name: string, value: Value): (r: seq<Frame>)
    requires env < |frames|
    ensures |r| == |frames| && r[env].parent == frames[env].parent
    ensures name in r[env].vars && r[env].vars[name] == value
    ensures forall n :: n != name && n in frames[env].vars ==> n in r[env].vars && r[env].vars[n] == frames[env].vars[n]
    ensures r[env].vars.Keys == frames[env].vars.Keys + {name}
    ensures forall i :: 0 <= i < |r| && i != env ==> r[i] == frames[i]
  {
    frames[env := Frame(frames[env].vars[name := value], frames[env].parent)]
  }

  /** Defining a value that refers to existing frames keeps the store valid. */
  lemma DefineValid(frames: seq<Frame>, env: nat, name: string, value: Value)
    requires Valid(frames) && env < |frames| && Refers(value, |frames|)
    ensures Valid(Define(frames, env, name, value))
  {
    var r := Define(frames, env, name, value);
    forall i, n | 0 <= i < |r| && n in r[i].vars
      ensures Refers(r[i].vars[n], |r|)
    {
      if i == env && n != name {
        assert r[i].vars[n] == frames[i].vars[n];
      }
    }
  }

  /** `Get`: the value of `name` in the innermost frame from `env` outward
      that binds it, or the runtime error `Undefined variable`. */
  function Get(frames: seq<Frame>, env: nat, name: Token): (r: Lookup<Value>)
    requires Linked(frames) && env < |frames|
    ensures var o := Owner(frames, env, name.lexeme);
            && (r.Found? <==> o.Some?)
            && (r.Found? ==> r.value == frames[o.value].vars[name.lexeme])
            && (r.Unbound? ==> r.error == Undefined(name))
    decreases env
  {
    var f := frames[env];
    if name.lexeme in f.vars then Found(f.vars[name.lexeme])
    else if f.parent.Some? then Get(frames, f.parent.value, name)
    else Unbound(Undefined(name))
  }

  /** Looking a name up right after defining it in the same frame finds the
      defined value, whatever the enclosing frames hold. */
  lemma GetAfterDefine(frames: seq<Frame>, env: nat, name: Token, value: Value)
    requires Linked(frames) && env < |frames|
    ensures Linked(Define(frames, env, name.lexeme, value))
    ensures Get(Define(frames, env, name.lexeme, value), env, name) == Found(value)
  {
  }

  /** Defining `name` changes no lookup of another name, from any frame. */
  lemma {:induction false} DefineOtherName(frames: seq<Frame>, env: nat, name: string, value: Value,
                                           from: nat, other: Token)
    requires Linked(frames) && env < |frames| && from < |frames| && other.lexeme != name
    ensures Linked(Define(frames, env, name, value))
    ensures Get(Define(frames, env, name, value), from, other) == Get(frames, from, other)
    decreases from
  {
    var r := Define(frames, env, name, value);
    assert r[from].parent == frames[from].parent;
    assert other.lexeme in r[from].vars <==> other.lexeme in frames[from].vars;
    if other.lexeme in frames[from].vars {
      assert r[from].vars[other.lexeme] == frames[from].vars[other.lexeme];
    } else if frames[from].parent.Some? {
      DefineOtherName(frames, env, name, value, frames[from].parent.value, other);
    }
  }

  /** `Assign`: overwrite the binding `Get` would read; it never creates a
      binding, and a name bound nowhere is the same error `Get` reports. */
  function Assign(frames: seq<Frame>, env: nat, name: Token, value: Value): (r: Lookup<seq<Frame>>)
    requires Linked(frames) && env < |frames|
    ensures var o := Owner(frames, env, name.lexeme);
            && (r.Found? <==> o.Some?)
            && (r.Found? ==> r.value == Define(frames, o.value, name.lexeme, value))
            && (r.Unbound? ==> r.error == Undefined(name))
    decreases env
  {
    var f := frames[env];
    if name.lexeme in f.vars then Found(frames[env := Frame(f.vars[name.lexeme := value], f.parent)])
    else if f.parent.Some? then Assign(frames, f.parent.value, name, value)
    else Unbound(Undefined(name))
  }

  /** After an assignment only the owning frame differs, it keeps the same
      names, and a lookup from where the assignment happened sees the new
      value. */
  lemma AssignEffect(frames: seq<Frame>, env: nat, name: Token, value: Value)
    requires Linked(frames) && env < |frames| && Assign(frames, env, name, value).Found?
    ensures var r := Assign(frames, env, name, value).value;
            var o := Owner(frames, env, name.lexeme).value;
            && |r| == |frames| && Linked(r)
            && (forall i :: 0 <= i < |r| ==> r[i].vars.Keys == frames[i].vars.Keys)
            && (forall i :: 0 <= i < |r| && i != o ==> r[i] == frames[i])
            && Get(r, env, name) == Found(value)
  {
    var r := Assign(frames, env, name, value).value;
    var o := Owner(frames, env, name.lexeme).value;
    assert r[o].vars.Keys == frames[o].vars.Keys;
    AssignedSeen(frames, env, o, name.lexeme, value);
    assert Owner(r, env, name.lexeme) == Some(o);
  }

  /** Redefining a name in its owning frame does not change which frame owns
      it. */
  lemma {:induction false} AssignedSeen(frames: seq<Frame>, env: nat, o: nat, name: string, value: Value)
    requires Linked(frames) && env < |frames| && Owner(frames, env, name) == Some(o)
    ensures Linked(Define(frames, o, name, value))
    ensures Owner(Define(frames, o, name, value), env, name) == Some(o)
    decreases env
  {
    var r := Define(frames, o, name, value);
    assert r[env].parent == frames[env].parent;
    if name !in frames[env].vars {
      assert env != o;
      AssignedSeen(frames, frames[env].parent.value, o, name, value);
    }
  }

  /** An assignment keeps the store valid when the value refers to existing
      frames. */
  lemma AssignValid(frames: seq<Frame>, env: nat, name: Token, value: Value)
    requires Valid(frames) && env < |frames| && Refers(value, |frames|)
    ensures Assign(frames, env, name, value).Found? ==> Valid(Assign(frames, env, name, value).value)
  {
    var o := Owner(frames, env, name.lexeme);
    if o.Some? {
      DefineValid(frames, o.value, name.lexeme, value);
    }
  }

  /** A lookup finds a value that refers to existing frames. */
  lemma GetRefers(frames: seq<Frame>, env: nat, name: Token)
    requires Valid(frames) && env < |frames|
    ensures Get(frames, env, name).Found? ==> Refers(Get(frames, env, name).value, |frames|)
  {
  }
}
