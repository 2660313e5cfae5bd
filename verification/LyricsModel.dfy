/** Lyric lines and their word cues. Texts are UTF-8 byte strings; cue offsets are inclusive byte offsets. */
module LyricsModel {

  datatype Option<+T> = None | Some(value: T)

  newtype byte = x: int | 0 <= x < 256

  type Bytes = seq<byte>

  /** The empty id, the "voice-n" ids of Lyricsfile, and the ids found in a document. */
  datatype AgentId = NoAgent | Voice(n: nat) | Named(name: string)

  datatype Cue = Cue(start: Option<int>, end: Option<int>, value: Bytes, byteStart: int, byteEnd: int, agent: AgentId)

  datatype Line = Line(start: Option<int>, end: Option<int>, value: Bytes, cues: seq<Cue>)

  datatype Agent = Agent(id: AgentId, role: string)

  /** The cue's value is what the line has at its offsets. */
  predicate CueFits(cue: Cue, value: Bytes) {
    0 <= cue.byteStart <= cue.byteEnd < |value| && value[cue.byteStart..cue.byteEnd + 1] == cue.value
  }

  /** Every cue fits, and they follow each other without overlap. */
  predicate CuesFit(cues: seq<Cue>, value: Bytes) {
    && (forall i | 0 <= i < |cues| :: CueFits(cues[i], value))
    && (forall i, j | 0 <= i < j < |cues| :: cues[i].byteEnd < cues[j].byteStart)
  }
}
