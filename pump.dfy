/**
 * The frame loop of `main`: while the cancellation future still times out, overwrite the whole image with
 * pseudo-random bytes, count the frame, report progress every 60 frames and send the image.
 */
module FramePump {

  /** `unsigned char`. */
  newtype byte = x: int | 0 <= x < 256

  /** One output of the 32-bit Mersenne Twister. */
  type Word = bv32

  const Width := 640
  const Height := 480
  /** The image holds four bytes per pixel. */
  const FrameBytes := Width * Height * 4

  /**
   * The seed the program gives the generator. This constant only documents it: the generator is a
   * parameter `gen` throughout, standing for the outputs of `std::mt19937` after `seed (Seed)` (`gen(k)`
   * is the `k`-th), and nothing in the model ties `gen` to this value.
   */
  const Seed: Word := 19740531

  /**
   * `random () >> 24` stored into an `unsigned char`: the top 8 bits of the word (a right shift of an
   * unsigned 32-bit value by 24 is division by 2^24), which always fit, so the store never truncates.
   */
  function Top8(w: Word): (b: byte)
    ensures b as int * 0x100_0000 <= w as int < (b as int + 1) * 0x100_0000
  {
    (w as int / 0x100_0000) as byte
  }

  /** The image after one fill that starts at generator position `start`. */
  function FrameFrom(gen: nat -> Word, start: nat): (f: seq<byte>)
    ensures |f| == FrameBytes
  {
    seq(FrameBytes, j requires 0 <= j => Top8(gen(start + j)))
  }

  /** The image sent on tick `t` (counting from 0): it consumes generator outputs `t * FrameBytes` onwards. */
  function Frame(gen: nat -> Word, t: nat): (f: seq<byte>)
    ensures |f| == FrameBytes
  {
    FrameFrom(gen, t * FrameBytes)
  }

  /** The result of `done.wait_for (20ms)`. */
  datatype Poll = Ready | Timeout | Deferred

  /** The observable effects of the loop, in order. */
  datatype Event =
    | Progress(frame: int)                               // printf ("Sending frame #%d\n", i)
    | SendImage(image: seq<byte>, width: int, height: int) // sender.SendImage (&image.front (), width, height)

  /** The number of ticks: the loop runs while the poll reports `Timeout` and stops at anything else. */
  function Ticks(polls: seq<Poll>): (n: nat)
    ensures n <= |polls|
    ensures forall q :: 0 <= q < n ==> polls[q] == Timeout
    ensures n < |polls| ==> polls[n] != Timeout
  {
    if polls == [] || polls[0] != Timeout then 0 else 1 + Ticks(polls[1..])
  }

  /**
   * The loop reads no poll result after the first one that is not `Timeout`: whatever the cancellation
   * future would report later cannot change how many ticks ran.
   */
  lemma {:induction false} PollsAfterStopIgnored(polls: seq<Poll>, later: seq<Poll>)
    requires Ticks(polls) < |polls|
    ensures Ticks(polls + later) == Ticks(polls)
  {
    if polls[0] == Timeout {
      assert (polls + later)[1..] == polls[1..] + later;
      PollsAfterStopIgnored(polls[1..], later);
    }
  }

  /** What tick number `n` (counting from 1) emits: a progress line when `n` is a multiple of 60, then the image. */
  function TickEvents(gen: nat -> Word, n: nat): seq<Event>
    requires n >= 1
  {
    (if n % 60 == 0 then [Progress(n)] else []) + [SendImage(Frame(gen, n - 1), Width, Height)]
  }

  /** Everything the first `n` ticks emit. */
  function PumpEvents(gen: nat -> Word, n: nat): seq<Event> {
    if n == 0 then [] else PumpEvents(gen, n - 1) + TickEvents(gen, n)
  }

  /**
   * The inner `for` loop: overwrite every byte of the image, in index order, with the next generator
   * output's top byte.
   */
  method Fill(image: array<byte>, gen: nat -> Word, start: nat)
    requires image.Length == FrameBytes
    modifies image
    ensures image[..] == FrameFrom(gen, start)
  {
    for j := 0 to image.Length
      invariant forall k :: 0 <= k < j ==> image[k] == Top8(gen(start + k))
    {
      image[j] := Top8(gen(start + j));
    }
  }

  /**
   * The `while` loop. `i` is the frame counter, `drawn` the number of generator outputs used so far, and
   * `p` the position in the poll sequence. The loop runs exactly `Ticks(polls)` times and emits
   * `PumpEvents`.
   */
  method Pump(polls: seq<Poll>, gen: nat -> Word) returns (events: seq<Event>, frames: nat)
    ensures frames == Ticks(polls)
    ensures events == PumpEvents(gen, frames)
  {
    var image := new byte[FrameBytes](_ => 0);
    var drawn := 0;
    var i := 0;
    var p := 0;
    events := [];
    while p < |polls| && polls[p] == Timeout
      invariant 0 <= p <= |polls|
      invariant forall q :: 0 <= q < p ==> polls[q] == Timeout
      invariant i == p && drawn == p * FrameBytes
      invariant image.Length == FrameBytes
      invariant events == PumpEvents(gen, i)
    {
      ghost var before := events;
      Fill(image, gen, drawn);
      assert image[..] == Frame(gen, i);
      drawn := drawn + FrameBytes;
      i := i + 1;
      if i % 60 == 0 {
        events := events + [Progress(i)];
      }
      events := events + [SendImage(image[..], Width, Height)];
      assert events == before + TickEvents(gen, i);
      p := p + 1;
    }
    frames := i;
  }

  /** The images sent, in order. */
  function Sent(es: seq<Event>): seq<seq<byte>> {
    if es == [] then []
    else Sent(es[..|es| - 1]) + (if es[|es| - 1].SendImage? then [es[|es| - 1].image] else [])
  }

  /** The counters of the progress lines printed, in order. */
  function ProgressLines(es: seq<Event>): seq<int> {
    if es == [] then []
    else ProgressLines(es[..|es| - 1]) + (if es[|es| - 1].Progress? then [es[|es| - 1].frame] else [])
  }

  lemma {:induction false} SentAppend(a: seq<Event>, b: seq<Event>)
    ensures Sent(a + b) == Sent(a) + Sent(b)
  {
    if b != [] {
      assert (a + b)[..|a + b| - 1] == a + b[..|b| - 1];
      SentAppend(a, b[..|b| - 1]);
    } else {
      assert a + b == a;
    }
  }

  lemma {:induction false} ProgressLinesAppend(a: seq<Event>, b: seq<Event>)
    ensures ProgressLines(a + b) == ProgressLines(a) + ProgressLines(b)
  {
    if b != [] {
      assert (a + b)[..|a + b| - 1] == a + b[..|b| - 1];
      ProgressLinesAppend(a, b[..|b| - 1]);
    } else {
      assert a + b == a;
    }
  }

  /** One tick sends exactly one image, the tick's frame. */
  lemma {:induction false} SentByTick(gen: nat -> Word, n: nat)
    requires n >= 1
    ensures Sent(TickEvents(gen, n)) == [Frame(gen, n - 1)]
  {
    var send := [SendImage(Frame(gen, n - 1), Width, Height)];
    assert Sent(send) == [Frame(gen, n - 1)] by { assert send[..0] == []; }
    if n % 60 == 0 {
      SentAppend([Progress(n)], send);
      assert Sent([Progress(n)]) == [] by { assert [Progress(n)][..0] == []; }
    } else {
      assert TickEvents(gen, n) == send;
    }
  }

  /** The frames of ticks `0..n-1`, in tick order. */
  function Frames(gen: nat -> Word, n: nat): seq<seq<byte>> {
    if n == 0 then [] else Frames(gen, n - 1) + [Frame(gen, n - 1)]
  }

  /** `Frames(gen, n)` holds `n` frames, the `t`-th being the one tick `t` fills. */
  lemma {:induction false} FramesAt(gen: nat -> Word, n: nat)
    ensures |Frames(gen, n)| == n
    ensures forall t :: 0 <= t < n ==> Frames(gen, n)[t] == Frame(gen, t)
  {
    if n > 0 {
      FramesAt(gen, n - 1);
    }
  }

  /** After `n` ticks exactly `n` images have been sent, one per tick, tick `t` sending `Frame(gen, t)`. */
  lemma {:induction false} OneFramePerTick(gen: nat -> Word, n: nat)
    ensures Sent(PumpEvents(gen, n)) == Frames(gen, n)
  {
    if n > 0 {
      var earlier, tick := PumpEvents(gen, n - 1), TickEvents(gen, n);
      assert PumpEvents(gen, n) == earlier + tick;
      OneFramePerTick(gen, n - 1);
      SentAppend(earlier, tick);
      SentByTick(gen, n);
      assert Frames(gen, n) == Frames(gen, n - 1) + [Frame(gen, n - 1)];
    }
  }

  /** The counters of the progress lines due after `n` ticks: 60, 120, ... up to `n`. */
  function Multiples(n: nat): (m: seq<int>)
    ensures |m| == n / 60
  {
    seq(n / 60, j requires 0 <= j => 60 * (j + 1))
  }

  /**
   * A progress line is printed exactly on the ticks whose counter is a multiple of 60, in increasing order,
   * so `n` ticks print `n / 60` lines.
   */
  lemma {:induction false} ProgressEverySixty(gen: nat -> Word, n: nat)
    ensures ProgressLines(PumpEvents(gen, n)) == Multiples(n)
    ensures |ProgressLines(PumpEvents(gen, n))| == n / 60
  {
    if n > 0 {
      ProgressEverySixty(gen, n - 1);
      var tail := [SendImage(Frame(gen, n - 1), Width, Height)];
      ProgressLinesAppend(PumpEvents(gen, n - 1), TickEvents(gen, n));
      ProgressLinesAppend(if n % 60 == 0 then [Progress(n)] else [], tail);
      assert ProgressLines(tail) == [] by { assert tail[..0] == []; }
      if n % 60 == 0 {
        assert ProgressLines([Progress(n)]) == [n] by { assert [Progress(n)][..0] == []; }
        assert n / 60 == (n - 1) / 60 + 1;
        assert Multiples(n) == Multiples(n - 1) + [n];
      } else {
        assert n / 60 == (n - 1) / 60;
        assert Multiples(n) == Multiples(n - 1);
      }
    }
  }

  /** A run of 180 ticks prints exactly three progress lines, for frames 60, 120 and 180. */
  lemma {:induction false} ThreeLinesIn180Ticks(gen: nat -> Word)
    ensures ProgressLines(PumpEvents(gen, 180)) == [60, 120, 180]
  {
    ProgressEverySixty(gen, 180);
  }

  /** The sender only ever receives a full 640 x 480 x 4 byte image with the sender's width and height. */
  lemma {:induction false} OnlyFullFramesSent(gen: nat -> Word, n: nat)
    ensures forall e :: e in PumpEvents(gen, n) && e.SendImage? ==>
      |e.image| == FrameBytes == 1228800 && e.width == Width && e.height == Height
  {
    if n > 0 {
      OnlyFullFramesSent(gen, n - 1);
    }
  }

  /** A frame depends only on the generator outputs it consumes, so a fixed seed reproduces it exactly. */
  lemma {:induction false} Reproducible(g1: nat -> Word, g2: nat -> Word, t: nat)
    requires forall k :: t * FrameBytes <= k < (t + 1) * FrameBytes ==> g1(k) == g2(k)
    ensures Frame(g1, t) == Frame(g2, t)
  {
    forall j | 0 <= j < FrameBytes
      ensures Frame(g1, t)[j] == Frame(g2, t)[j]
    {
      assert g1(t * FrameBytes + j) == g2(t * FrameBytes + j);
    }
  }
}
