/**
 * `components/DialogueSection.tsx`: the "play all" sequencer over the lines
 * of a dialogue.  Audio playback itself and the 500 ms pause are effects
 * outside the model; the state is whether auto-play is on and which line
 * is playing.
 */
module DialoguePlayer {
  import opened Common

  class Player {
    const lineCount: nat
    var isAutoPlaying: bool
    var playingIndex: Option<int>

    /** While auto-playing, some line is tracked, and it is a real line
      * (line 0 when the dialogue is empty, which the next line end stops). */
    predicate Valid()
      reads this
    {
      isAutoPlaying ==>
        playingIndex.Some? && 0 <= playingIndex.value && (playingIndex.value < lineCount || playingIndex.value == 0)
    }

    constructor (lineCount: nat)
      ensures Valid()
      ensures this.lineCount == lineCount && !isAutoPlaying && playingIndex == None
    {
      this.lineCount := lineCount;
      isAutoPlaying := false;
      playingIndex := None;
    }

    /** Stops a running play-all; otherwise starts from the first line. */
    method HandlePlayAll()
      requires Valid()
      modifies this
      ensures Valid()
      ensures old(isAutoPlaying) ==> !isAutoPlaying && playingIndex == None
      ensures !old(isAutoPlaying) ==> isAutoPlaying && playingIndex == Some(0)
    {
      if isAutoPlaying {
        isAutoPlaying := false;
        playingIndex := None;
      } else {
        isAutoPlaying := true;
        playingIndex := Some(0);
      }
    }

    /** Only the end of the tracked line during auto-play moves the sequence:
      * to the next line, or, after the last, to idle. */
    method HandleLineEnded(index: int)
      requires Valid()
      modifies this
      ensures Valid()
      ensures !(old(isAutoPlaying) && old(playingIndex) == Some(index)) ==>
        isAutoPlaying == old(isAutoPlaying) && playingIndex == old(playingIndex)
      ensures old(isAutoPlaying) && old(playingIndex) == Some(index) && index + 1 < lineCount ==>
        isAutoPlaying && playingIndex == Some(index + 1)
      ensures old(isAutoPlaying) && old(playingIndex) == Some(index) && index + 1 >= lineCount ==>
        !isAutoPlaying && playingIndex == None
    {
      if isAutoPlaying && playingIndex == Some(index) {
        var nextIndex := index + 1;
        if nextIndex < lineCount {
          playingIndex := Some(nextIndex);
        } else {
          isAutoPlaying := false;
          playingIndex := None;
        }
      }
    }

    /** A click on a line tracks that line; clicking another line than the
      * tracked one cancels auto-play. */
    method HandleManualPlay(index: int)
      requires Valid()
      modifies this
      ensures Valid()
      ensures playingIndex == Some(index)
      ensures isAutoPlaying <==> old(isAutoPlaying) && old(playingIndex) == Some(index)
    {
      if isAutoPlaying && playingIndex != Some(index) {
        isAutoPlaying := false;
      }
      playingIndex := Some(index);
    }
  }
}
