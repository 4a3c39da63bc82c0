/**
 * The fixed-size magnitude buffer shared by both fallback listeners:
 * one magnitude per sample is written at the cyclic cursor `tick`, and
 * the buffer is low-pass filtered once the cursor wraps to 0.
 */
module SampleWindow {

  /** Number of slots of the buffer (`bufferSize`). */
  const BufferSize: nat := 100

  /** A full buffer of magnitudes. */
  type Window = s: seq<real> | |s| == BufferSize witness seq(BufferSize, _ => 0.0)

  /**
   * The low-pass filter is an external library routine; the model keeps it
   * abstract and assumes only that it maps a full window to a full window.
   */
  type LowPass = Window -> Window

  /** The cursor after one more sample, `(tick + 1) % bufferSize`. */
  function NextTick(tick: nat): (next: nat)
    requires tick < BufferSize
    ensures next < BufferSize
    ensures next == 0 <==> tick == BufferSize - 1
    ensures next != 0 ==> next == tick + 1
  {
    (tick + 1) % BufferSize
  }

  /**
   * Cadence of the cursor: a listener that has completed `windows` windows
   * and sits at cursor `tick` has received `windows * 100 + tick` samples,
   * so after `received` samples the cursor is `received % 100` and
   * `received / 100` windows have completed.
   */
  lemma Cadence(received: nat, windows: nat, tick: nat)
    requires tick < BufferSize && received == windows * BufferSize + tick
    ensures tick == received % BufferSize
    ensures windows == received / BufferSize
  {
  }

  /** One more sample either advances the cursor or completes a window and resets it. */
  lemma CadenceStep(received: nat, windows: nat, tick: nat)
    requires tick < BufferSize && received == windows * BufferSize + tick
    ensures NextTick(tick) == 0 ==> received + 1 == (windows + 1) * BufferSize + NextTick(tick)
    ensures NextTick(tick) != 0 ==> received + 1 == windows * BufferSize + NextTick(tick)
  {
  }

  /** Writes one magnitude at the cursor (`arrayBuffer[tick] = mag`) and advances the cursor. */
  method WriteSample(buffer: array<real>, tick: nat, magnitude: real) returns (next: nat)
    requires buffer.Length == BufferSize && tick < BufferSize
    modifies buffer
    ensures buffer[..] == old(buffer[..])[tick := magnitude]
    ensures next == NextTick(tick)
  {
    buffer[tick] := magnitude;
    next := (tick + 1) % BufferSize;
  }

  /**
   * `filterBuffer`: the filter returns a new array holding the filtered
   * window, which then replaces the buffer.
   */
  method FilterBuffer(buffer: array<real>, lowPass: LowPass) returns (filtered: array<real>)
    requires buffer.Length == BufferSize
    ensures fresh(filtered)
    ensures filtered[..] == lowPass(buffer[..])
  {
    var out := lowPass(buffer[..]);
    filtered := new real[BufferSize](i requires 0 <= i < BufferSize => out[i]);
    assert filtered[..] == out;
  }
}
