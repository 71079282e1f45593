/** The images of one swapchain in driver/wsi.c: which of them are in flight, and
    which one vkAcquireNextImageKHR hands out. */
module Swapchain {
  import opened Arithmetic
  import opened Seqs

  /** The first image not in flight among left images from start on, cyclically. */
  function NextFree(inFlight: seq<bool>, start: nat, left: nat): (c: Option<nat>)
    requires start < |inFlight|
    ensures c.Some? ==> c.value < |inFlight| && !inFlight[c.value]
    decreases left
  {
    if left == 0 then None
    else if !inFlight[start] then Some(start)
    else NextFree(inFlight, Around(start, 1, |inFlight|), left - 1)
  }

  /** The image handed out when the last one was backbuffer. */
  function Choose(inFlight: seq<bool>, backbuffer: nat): (c: nat)
    requires backbuffer < |inFlight|
    ensures c < |inFlight|
  {
    var f := NextFree(inFlight, Around(backbuffer, 1, |inFlight|), |inFlight|);
    if f.Some? then f.value else backbuffer
  }

  lemma {:induction false} NextFreeFinds(inFlight: seq<bool>, start: nat, left: nat, d: nat)
    requires start < |inFlight| && d < left <= |inFlight| && !inFlight[Around(start, d, |inFlight|)]
    ensures NextFree(inFlight, start, left).Some?
    decreases left
  {
    if d > 0 {
      NextFreeFinds(inFlight, Around(start, 1, |inFlight|), left - 1, d - 1);
    }
  }

  /** The image handed out is not in flight, unless all of them are. */
  lemma ChooseSound(inFlight: seq<bool>, backbuffer: nat)
    requires backbuffer < |inFlight|
    ensures inFlight[Choose(inFlight, backbuffer)] <==> forall c :: 0 <= c < |inFlight| ==> inFlight[c]
    ensures (forall c :: 0 <= c < |inFlight| ==> inFlight[c]) ==> Choose(inFlight, backbuffer) == backbuffer
  {
    var n := |inFlight|;
    if c :| 0 <= c < n && !inFlight[c] {
      var start := Around(backbuffer, 1, n);
      var d := if start <= c then c - start else c + n - start;
      assert Around(start, d, n) == c;
      NextFreeFinds(inFlight, start, n, d);
    }
  }

  /** The d images from start on are in flight. */
  predicate AllAhead(inFlight: seq<bool>, start: nat, d: nat)
    requires start < |inFlight| && d <= |inFlight|
  {
    forall e :: 0 <= e < d ==> inFlight[Around(start, e, |inFlight|)]
  }

  lemma {:induction false} NextFreeNearest(inFlight: seq<bool>, start: nat, left: nat) returns (d: nat)
    requires start < |inFlight| && left <= |inFlight|
    ensures d <= left && AllAhead(inFlight, start, d)
    ensures NextFree(inFlight, start, left) == (if d == left then None else Some(Around(start, d, |inFlight|)))
    decreases left
  {
    d := 0;
    if left > 0 && inFlight[start] {
      d := NextFreeNearest(inFlight, Around(start, 1, |inFlight|), left - 1);
      OneMoreAhead(inFlight, start, d);
      d := d + 1;
    }
  }

  lemma OneMoreAhead(inFlight: seq<bool>, start: nat, d: nat)
    requires start < |inFlight| && d < |inFlight| && inFlight[start] && AllAhead(inFlight, Around(start, 1, |inFlight|), d)
    ensures AllAhead(inFlight, start, d + 1)
  {
    forall e | 0 <= e < d + 1 ensures inFlight[Around(start, e, |inFlight|)] {
      if e > 0 { assert Around(start, e, |inFlight|) == Around(Around(start, 1, |inFlight|), e - 1, |inFlight|); }
    }
  }

  /** The image handed out is the nearest one behind the last that is not in flight:
      (k - backbuffer - 1) % n says how far image k is behind the one that follows
      the last, which itself comes last. */
  lemma ChooseNearest(inFlight: seq<bool>, backbuffer: nat, k: nat)
    requires backbuffer < |inFlight| && k < |inFlight| && !inFlight[k]
    ensures var n, c := |inFlight|, Choose(inFlight, backbuffer);
      !inFlight[c] && (c - backbuffer - 1) % n <= (k - backbuffer - 1) % n
  {
    var n, c := |inFlight|, Choose(inFlight, backbuffer);
    var start := Around(backbuffer, 1, n);
    var d := NextFreeNearest(inFlight, start, n);
    StepsIsModulo(backbuffer, k, n);
    assert d <= Steps(start, k, n);
    StepsIsModulo(backbuffer, c, n);
  }

  /** The first image with this address, if any. */
  function Find(images: seq<nat>, image: nat): (c: nat) {
    IndexOf(images, image)
  }

  /** inFlight after modeset_acquire_image has returned an image, or nothing. */
  function Cleared(images: seq<nat>, inFlight: seq<bool>, image: Option<nat>): (r: seq<bool>)
    requires |images| == |inFlight|
    ensures |r| == |inFlight|
  {
    if image.Some? && image.value in images then inFlight[Find(images, image.value) := false] else inFlight
  }

  /** Only the first image with that address is taken out of flight. */
  lemma ClearedOnly(images: seq<nat>, inFlight: seq<bool>, image: Option<nat>, k: nat)
    requires |images| == |inFlight| && k < |images|
    ensures Cleared(images, inFlight, image)[k] <==> inFlight[k] && !(image == Some(images[k]) && images[k] !in images[..k])
  {
    if image.Some? && image.value in images {
      assert image.value !in images[..Find(images, image.value)];
    }
  }

  class Swapchain {
    const images: seq<nat>
    const surface: nat
    const inFlight: array<bool>
    var backbufferIdx: nat

    ghost predicate Valid()
      reads this, inFlight
    {
      0 < inFlight.Length == |images| && backbufferIdx < inFlight.Length
    }

    constructor (imgs: seq<nat>, surf: nat)
      requires imgs != []
      ensures Valid() && images == imgs && surface == surf && fresh(inFlight)
      ensures forall c :: 0 <= c < |imgs| ==> !inFlight[c]
    {
      images, surface, backbufferIdx := imgs, surf, 0;
      inFlight := new bool[|imgs|](_ => false);
    }

    /** vkAcquireNextImageKHR once modeset_acquire_image has returned. */
    method AcquireNextImage(found: bool, image: nat, surf: nat) returns (index: nat)
      requires Valid()
      modifies this, inFlight
      ensures Valid() && index == backbufferIdx
      ensures inFlight[..] == Cleared(images, old(inFlight[..]), if found && surf == surface then Some(image) else None)
      ensures index == Choose(inFlight[..], old(backbufferIdx))
      ensures forall k :: 0 <= k < |images| && !inFlight[k] ==>
        !inFlight[index] && (index - old(backbufferIdx) - 1) % |images| <= (k - old(backbufferIdx) - 1) % |images|
    {
      if found {
        Clear(image, surf);
      }
      index := Search();
      forall k | 0 <= k < |images| && !inFlight[k]
        ensures !inFlight[index] && (index - backbufferIdx - 1) % |images| <= (k - backbufferIdx - 1) % |images|
      {
        ChooseNearest(inFlight[..], backbufferIdx, k);
      }
      backbufferIdx := index;
    }

    method Clear(image: nat, surf: nat)
      requires Valid()
      modifies inFlight
      ensures inFlight[..] == Cleared(images, old(inFlight[..]), if surf == surface then Some(image) else None)
    {
      var c := 0;
      while c < inFlight.Length
        invariant 0 <= c <= inFlight.Length && inFlight[..] == old(inFlight[..])
        invariant surf == surface ==> forall j :: 0 <= j < c ==> images[j] != image
      {
        if images[c] == image && surface == surf {
          inFlight[c] := false;
          return;
        }
        c := c + 1;
      }
    }

    method Search() returns (index: nat)
      requires Valid()
      ensures index == Choose(inFlight[..], backbufferIdx)
    {
      var n := inFlight.Length;
      AroundIsModulo(backbufferIdx, n);
      var candidate: nat := (backbufferIdx + 1) % n;
      ghost var start: nat := candidate;
      var c := 0;
      while c < n
        invariant 0 <= c <= n && candidate < n
        invariant NextFree(inFlight[..], start, n) == NextFree(inFlight[..], candidate, n - c)
      {
        AroundIsModulo(candidate, n);
        if !inFlight[candidate] {
          return candidate;
        }
        candidate := (candidate + 1) % n;
        c := c + 1;
      }
      index := backbufferIdx;
    }

    /** vkQueuePresentKHR once modeset_present has queued the image. */
    method MarkPresented(index: nat)
      requires Valid() && index < |images|
      modifies inFlight
      ensures inFlight[..] == old(inFlight[..])[index := true]
    {
      inFlight[index] := true;
    }
  }
}
