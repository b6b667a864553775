/**
  The OpenGL driver's texture stage cache: one slot per texture stage,
  each holding the texture currently bound there or null. Binding a texture
  takes a reference to it (grab) and unbinding releases one (drop).

  Textures are objects compared by identity. The reference counts the
  cache contributes are the ghost multiset `Held`: a texture's multiplicity
  in it is the number of grabs minus drops the cache has performed on it.
 */
module TextureStageCache {

  /** MATERIAL_MAX_TEXTURES, the number of texture stages of a material. */
  const MaterialMaxTextures: nat := 8

  const IntMax: int := 0x7fff_ffff
  const IntMin: int := -0x8000_0000
  const U32Modulus: nat := 0x1_0000_0000

  /** A texture, known here only by its identity. */
  class Texture {
    constructor () {}
  }

  /** The non-null entries of a slot sequence, with multiplicity. */
  ghost function Occupants(s: seq<Texture?>): multiset<Texture?>
  {
    multiset(s)[null := 0]
  }

  /** One reference to `t`, or none for null. */
  ghost function Single(t: Texture?): multiset<Texture?> {
    if t == null then multiset{} else multiset{t}
  }

  /** Rebinding one slot: the new entry gains one occurrence and the old entry loses one. */
  lemma OccupantsUpdate(s: seq<Texture?>, k: nat, t: Texture?)
    requires k < |s|
    ensures Occupants(s[k := t]) + Single(s[k]) == Occupants(s) + Single(t)
  {
    assert s == s[..k] + [s[k]] + s[k + 1..];
    assert s[k := t] == s[..k] + [t] + s[k + 1..];
    assert multiset(s[k := t]) + multiset{s[k]} == multiset(s) + multiset{t};
  }

  /** Removing the same reference from both sides keeps them equal. */
  lemma CancelSingle(a: multiset<Texture?>, b: multiset<Texture?>, t: Texture?)
    requires a + Single(t) == b + Single(t)
    ensures a == b
  {
    assert a == (a + Single(t)) - Single(t);
    assert b == (b + Single(t)) - Single(t);
  }

  lemma OccupantsContains(s: seq<Texture?>, k: nat)
    requires k < |s| && s[k] != null
    ensures s[k] in Occupants(s)
  {
  }

  /** Slots that hold `tex` become empty, every other entry is kept. */
  ghost function WithoutTexture(s: seq<Texture?>, tex: Texture): (r: seq<Texture?>)
    ensures |r| == |s|
  {
    seq(|s|, k requires 0 <= k < |s| => if s[k] == tex then null else s[k])
  }

  /** Emptying every slot that holds a texture removes exactly its whole multiplicity. */
  lemma {:induction false} OccupantsWithout(s: seq<Texture?>, tex: Texture)
    ensures Occupants(WithoutTexture(s, tex)) == Occupants(s)[tex := 0]
  {
    if s != [] {
      var last := |s| - 1;
      var pre := s[..last];
      var wp := WithoutTexture(pre, tex);
      var w := WithoutTexture(s, tex);
      OccupantsWithout(pre, tex);
      assert w == wp + [w[last]];
      assert s == pre + [s[last]];
      var lhs := Occupants(w);
      var rhs := Occupants(s)[tex := 0];
      forall o | true
        ensures lhs[o] == rhs[o]
      {
        assert multiset(w)[o] == multiset(wp)[o] + multiset{w[last]}[o];
        assert multiset(s)[o] == multiset(pre)[o] + multiset{s[last]}[o];
        if o != null && o != tex {
          assert Occupants(wp)[o] == Occupants(pre)[o];
        }
      }
      assert lhs == rhs;
    }
  }

  lemma {:induction false} OccupantsAllNull(s: seq<Texture?>)
    requires forall k :: 0 <= k < |s| ==> s[k] == null
    ensures Occupants(s) == multiset{}
  {
    if s != [] {
      var last := |s| - 1;
      OccupantsAllNull(s[..last]);
      assert s == s[..last] + [s[last]];
    }
  }

  class StageCache {
    /** CurrentTexture: the texture bound at each stage, or null. */
    const slots: array<Texture?>
    /** The references the cache holds. */
    ghost var Held: multiset<Texture?>

    ghost predicate Valid()
      reads this, slots
    {
      slots.Length == MaterialMaxTextures && Held == Occupants(slots[..])
    }

    /** After construction every stage is empty. */
    constructor ()
      ensures Valid() && fresh(slots)
      ensures forall k :: 0 <= k < slots.Length ==> slots[k] == null
      ensures Held == multiset{}
    {
      var a := new Texture?[MaterialMaxTextures];
      for i := 0 to MaterialMaxTextures
        invariant forall k :: 0 <= k < i ==> a[k] == null
      {
        a[i] := null;
      }
      slots := a;
      Held := multiset{};
      new;
      OccupantsAllNull(slots[..]);
    }

    /** Bind `tex` at `stage` (an unsigned 32-bit stage number); stages
        past the last are ignored. */
    method Set(stage: nat, tex: Texture?)
      requires Valid()
      requires stage < U32Modulus
      modifies this, slots
      ensures Valid()
      ensures stage >= MaterialMaxTextures ==> slots[..] == old(slots[..]) && Held == old(Held)
      ensures stage < MaterialMaxTextures ==> slots[..] == old(slots[..])[stage := tex]
      ensures stage < MaterialMaxTextures ==>
                Held + Single(old(slots[stage])) == old(Held) + Single(tex)
      ensures stage < MaterialMaxTextures && tex == old(slots[stage]) ==> Held == old(Held)
    {
      if stage < MaterialMaxTextures {
        ghost var held0 := Held;
        Bind(stage, tex);
        assert tex == old(slots[stage]) ==> Held + Single(tex) == held0 + Single(tex);
      }
    }

    /** The in-range part of `set`: the new texture is grabbed before the old
        one is dropped, so rebinding the same texture never releases its last reference. */
    method Bind(stage: nat, tex: Texture?)
      requires Valid()
      requires stage < MaterialMaxTextures
      modifies this, slots
      ensures Valid()
      ensures slots[..] == old(slots[..])[stage := tex]
      ensures Held + Single(old(slots[stage])) == old(Held) + Single(tex)
    {
      var oldTexture := slots[stage];
      ghost var before := slots[..];
      OccupantsUpdate(before, stage, tex);
      if tex != null {
        Held := Held + multiset{tex};
      }
      slots[stage] := tex;
      assert slots[..] == before[stage := tex];
      if oldTexture != null {
        // when the same texture is bound again, the cache holds two references to it here
        assert tex == oldTexture ==> Held[oldTexture] >= 2 by {
          OccupantsContains(before, stage);
        }
        Held := Held - multiset{oldTexture};
      }
      assert Held + Single(oldTexture) == old(Held) + Single(tex);
      CancelSingle(Held, Occupants(slots[..]), oldTexture);
    }

    /** operator[]: the texture at a stage given as a signed int; the cast to
        u32 sends every negative stage out of range. */
    function Get(stage: int): (t: Texture?)
      requires Valid()
      requires IntMin <= stage <= IntMax
      reads this, slots
      ensures 0 <= stage < MaterialMaxTextures ==> t == slots[stage]
      ensures stage < 0 || stage >= MaterialMaxTextures ==> t == null
    {
      var unsigned := if stage < 0 then stage + U32Modulus else stage;
      if unsigned < MaterialMaxTextures then slots[unsigned] else null
    }

    /** `CurrentTexture[i]->drop(); CurrentTexture[i] = 0;` */
    method DropSlot(i: nat)
      requires Valid()
      requires i < MaterialMaxTextures && slots[i] != null
      modifies this, slots
      ensures Valid()
      ensures slots[..] == old(slots[..])[i := null]
      ensures Held + multiset{old(slots[i])} == old(Held)
    {
      var current := slots[i];
      ghost var before := slots[..];
      OccupantsUpdate(before, i, null);
      Held := Held - multiset{current};
      slots[i] := null;
      assert slots[..] == before[i := null];
    }

    /** Unbind `tex` from every stage that holds it, dropping it once per such stage. */
    method Remove(tex: Texture)
      requires Valid()
      modifies this, slots
      ensures Valid()
      ensures slots[..] == WithoutTexture(old(slots[..]), tex)
      ensures Held == old(Held)[tex := 0]
    {
      ghost var before := slots[..];
      var i: int := MaterialMaxTextures as int - 1;
      while i >= 0
        invariant -1 <= i < MaterialMaxTextures
        invariant Valid()
        invariant forall k :: 0 <= k <= i ==> slots[k] == before[k]
        invariant forall k :: i < k < MaterialMaxTextures ==> slots[k] == WithoutTexture(before, tex)[k]
      {
        if slots[i] == tex {
          DropSlot(i);
        }
        i := i - 1;
      }
      assert slots[..] == WithoutTexture(before, tex);
      OccupantsWithout(before, tex);
    }

    /** Drop every bound texture once and empty every stage. */
    method Clear()
      requires Valid()
      modifies this, slots
      ensures Valid()
      ensures forall k :: 0 <= k < slots.Length ==> slots[k] == null
      ensures Held == multiset{}
    {
      for i := 0 to MaterialMaxTextures
        invariant Valid()
        invariant forall k :: 0 <= k < i ==> slots[k] == null
      {
        if slots[i] != null {
          DropSlot(i);
        }
      }
      OccupantsAllNull(slots[..]);
    }

    /** The destructor: releases every reference the cache holds. */
    method Destroy()
      requires Valid()
      modifies this, slots
      ensures Valid()
      ensures forall k :: 0 <= k < slots.Length ==> slots[k] == null
      ensures Held == multiset{}
    {
      Clear();
    }
  }
}
