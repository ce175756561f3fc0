# A model of gophonic's algorithms and protocols

This project models the parts of gophonic (speech recognition, speech synthesis and chat in Go)
whose correctness does not show in one function, and proves what they promise. Each file models
one component, in the source's own form: state that methods change is a class, a loop over arrays
is a method proved against a specification, and a concurrent protocol is a relation over steps.

| file | component |
|---|---|
| `EmbeddingCache.dfy` | the embedding cache: linear probing, backward-shift deletion and CLOCK eviction refine a bounded map |
| `Conversation.dfy`, `Session.dfy`, `Replies.dfy` | a chat session with a reusable key/value store and checked drafts, against a reference that keeps nothing; what that reference says, told by the tokens alone |
| `TopK.dfy` | the sampler's heap of the k largest logits |
| `Transcription.dfy`, `Transcriber.dfy` | speech recognition with drafts from partial transcripts and reused audio rows |
| `Alignment.dfy` | dynamic time warping of tokens to frames, and the words of a segment |
| `Streaming.dfy`, `CodecWeights.dfy` | the streaming codec decoder: convolution layers with kept history and attention layers with a window, in one chain; the weight layouts of its convolutions |
| `Lockstep.dfy` | the codec's transformer: spin barrier, footprints of its stages, attention window |
| `Pool.dfy` | the model pool, with any number of clients |
| `Batch.dfy` | the batch decode coordinator and its lanes |
| `Timestamps.dfy` | the timestamp grammar of the greedy decoder |
| `ToolCalls.dfy`, `XmlCalls.dfy` | the two dialects of tool calls: printers, scanners, and their round trips |
| `Cascade.dfy`, `Reply.dfy` | the sample ring, and the reply writer of the voice loop with its echo guard |
| `Quantizer.dfy` | the 8-bit dynamic quantizer |
| `Synth.dfy` | a speech lane: how utterances reach its worker, its sample queue and its text marks |

What the source leaves to other code is a parameter. The evaluator is an arbitrary function from
tokens to a state, the sampler an arbitrary function with a random state, the audio encoder a
function whose rows of complete windows depend on their frames only, an activation any function
that maps zero to zero, a convolution's product any function of its rows, an attention layer any
function of the entries it attends to. The words of a message are given. Real numbers stand for
floating point, and an explicit infinity or NaN where the code compares with them.

Where the code does not meet a property everywhere, the exact condition is proved:

- A draft in a chat reply is invisible exactly when it holds no end token; in speech recognition
  it must also leave room for one more token. A session's drafts come from tool scaffolds, so
  `Session.Serve` asks that no scaffold holds an end token; the recognizer's theorem asks the same
  of a partial transcript.
- A cell ties when its diagonal equals its upper neighbour with both below its left one; there
  the code takes the left. The path that time warping returns is the cheapest exactly when some
  cheapest path meets no tie; that no cell ties at all is exactly what makes every cell's path so.
- The pool leaves a model open exactly when `Close` falls between the check that the pool still
  holds the model (pool.go:136-140) and its announcement (pool.go:146).
- A reply's pieces do not matter exactly when each `<silent` reached closes within 65 bytes or
  never: a marker split across pieces is given up after 64 bytes, a whole one is read at any length.
- The reply writer's loop goes round for ever exactly when the echo guard is undecided, the text
  has a '<', and what precedes the first one may still become a repetition of the message; or
  when that '<' begins the text and no marker, and the message has three words or more
  (cascade.go:1730-1750, where `speak` holds the text back and the loop goes on).
- The worker of a speech lane can make a second pass over an utterance exactly when a wake-up is
  still on its way as it speaks. Marks can go back where the second pass begins, and a failure of
  the first is overwritten by the end of the second; both only then.
- Nothing between two barriers races exactly when the gate's chunks are a multiple of the
  participants, as they are in the code.
- A late writer to the ring is refused unless the 32-bit generation counter has come round.
- A call in the JSON dialect comes back exactly when a string scan of its name ends with the
  name: no quote in it is unescaped, and no backslash is left open.
- A call in the XML dialect comes back exactly when its name is not empty and, like its keys, has
  no '>', and no value holds the closing tag. A string parameter comes back as a string exactly
  when it is declared one or its text is no JSON.

## Model

| member | source | states |
|---|---|---|
| `ProbeTable.NextIsMasked` | qwen3/cache.go:60-61 | In an index of a power of two of slots, the bitwise mask gives the first slot of every key and the slot after every slot. |
| `ProbeTable.ShiftsIsOnPath` | qwen3/cache.go:125-126 | The wrap-around case analysis is right: an entry is moved back exactly when the hole lies on the path from its home to its slot, for every home, hole and slot. |
| `ProbeTable.EmptySlot` | qwen3/cache.go:36-39 | At most half the slots fill, so every probe and shift loop meets an empty slot and ends. |
| `ProbeTable.ShiftedBack` | qwen3/cache.go:127-129 | Moving an entry on the hole's path back moves the hole, and keeps each live entry in exactly one slot and every other path whole. |
| `ProbeTable.HoleHarmless` | qwen3/cache.go:114-123 | Once the next gap is met and nothing before it wanted the hole, no entry's path from its home crosses an empty slot. |
| `ProbeTable.ProbeMisses` | qwen3/cache.go:60-65 | A probe that meets an empty slot proves the key is nowhere in the index. |
| `ProbeTable.Filled` | qwen3/cache.go:102-103 | Filling the slot a probe stopped at keeps every path whole. |
| `ClockMap.GetRefinesMap` | qwen3/cache.go:70-80 | A lookup hits exactly the keys of the map, with their vectors, and changes no content. |
| `ClockMap.PutRefinesMap` | qwen3/cache.go:83-105 | An insert adds the key; a full cache forgets exactly one key, that of the first clear bit from the hand or of the hand itself, and every other key keeps its vector. |
| `ClockMap.VictimReferenced` | qwen3/cache.go:93-97 | A victim whose bit is set is the hand, and then every bit is set. |
| `ClockMap.BitsAreHistory` | qwen3/cache.go:76-102 | Over every run from an empty cache, an entry's bit is set exactly when its key was looked up since its insert and since the hand last passed it. |
| `ClockMap.HandMoves` | qwen3/cache.go:93-99 | The hand moves only when a key makes room, and then to the entry after the new key's, which it comes to last. |
| `ClockMap.EvictedByHistory` | qwen3/cache.go:93-100 | Over every run, the key that makes room is the first from the hand not looked up since the hand passed it; the hand's own when all were. |
| `ClockMap.SecondChance` | qwen3/cache.go:76-102 | Over every run, a key looked up since the hand passed it survives an insert, with its vector, as long as some key held was not. |
| `ClockMap.TouchedWasSeen` | qwen3/cache.go:76-102 | A key not looked up since its own insert is such a key. |
| `ClockMap.RunFaithful` | qwen3/cache.go:70-105 | Over every run of lookups and inserts, whatever is held under a key is what would be computed for it. |
| `EmbeddingCache.Cache.constructor` | qwen3/cache.go:35-51 | A cache begins empty, with a power of two of at least twice as many slots as entries. |
| `EmbeddingCache.Cache.Find` | qwen3/cache.go:59-67 | The probe loop ends, with the slot and entry of the key, or with the gap it goes to and the proof that it is absent. |
| `EmbeddingCache.Cache.Remove` | qwen3/cache.go:109-133 | Backward-shift deletion in place removes the key, keeps every other entry, and leaves no gap on any path. |
| `EmbeddingCache.Cache.Sweep` | qwen3/cache.go:93-98 | The hand clears the bits it passes and stops at the first clear one. |
| `EmbeddingCache.Cache.Get` | qwen3/cache.go:70-80 | The arrays refine the bounded map: a hit copies the map's vector, sets one bit, and counts. |
| `EmbeddingCache.Cache.Put` | qwen3/cache.go:83-105 | The arrays refine the bounded map: the whole new state is that of the map's insert. |
| `Conversation.CheckedGrows` | qwen3/chat.go:508-535 | A check adds a prefix of the draft to the conversation and no more. |
| `Conversation.DraftInvisible` | qwen3/chat.go:331-367 | A draft without end tokens does not show in a reply: same tokens, pieces, calls, penalties and random draws. |
| `Conversation.DraftInvisibleIff` | qwen3/chat.go:331-367 | A draft is invisible to every sampler exactly when it holds no end token. |
| `Conversation.DecodeGrows` | qwen3/chat.go:331-345 | A reply extends the conversation, by at most the room there is. |
| `Conversation.ClosersOfBody` | qwen3/chat.go:545-615 | The closing punctuation judged is the message's own. |
| `Conversation.JudgmentOfTokens` | qwen3/chat.go:545-615 | A judgment depends on the tokens judged only, not on who wrote them. |
| `Conversation.HeardIsMost` | qwen3/chat.go:721-741 | A cut keeps the most tokens whose bytes fit what was heard. |
| `Replies.ReplyTells` | qwen3/chat.go:293-367 | A reply is refused exactly when the context has no room for it. Its writer gets the bytes of its tokens outside calls, in order, in pieces none of which is empty, and nothing is held back; its calls are the parses of the texts between an opening and the closing token after it, in order; every token was drawn after those before it from the logits lowered by the presence penalty at exactly those; and it ends where the room or the limit does or an end token is drawn. |
| `Replies.DecodeHoldsBack` | qwen3/chat.go:688-718 | While a reply is written, what is held back is the unfinished rune at the end of its text, if there is one, and nothing else. |
| `Replies.CompleteIff` | qwen3/chat.go:704-718 | What counts as complete ends where an unfinished rune of at most three bytes begins: a lead byte and continuation bytes that are no full rune. |
| `Replies.AddTells` | qwen3/chat.go:243-270 | A message joins the conversation whole, between its header and its end; text that has no tokens changes nothing. |
| `Replies.JudgeTells` | qwen3/chat.go:545-615 | The probability judged is that nothing but the closing punctuation follows the words, times that the message is over behind it; judging is refused exactly for tool results, text that has no tokens, and where no room is left. |
| `Replies.CutTells` | qwen3/chat.go:721-741 | A reply that is cut keeps the most tokens whose bytes fit what was heard, and ends there. |
| `Session.SharedIsLongest` | qwen3/chat.go:479-502 | The draft is the longest continuation shared by the scaffolds of all tools the call can still be to. |
| `Session.CommonPrefix` | qwen3/chat.go:317-318 | The kept part of the store is a true prefix of the conversation, and the longest. |
| `Session.Session.Take` | qwen3/chat.go:389-408 | Taking a token does to text, call, penalties and conversation what the reference does. |
| `Session.Session.Reserve` | qwen3/chat.go:761-779 | The store grows by doubling to at most the context limit, and a new store keeps a prefix of what the old one shared with the conversation. |
| `Session.Session.Draft` | qwen3/chat.go:479-502 | A session drafts only the shared rest of a scaffold, and less than the room left. |
| `Session.Session.Verify` | qwen3/chat.go:508-535 | One pass over a draft takes the tokens, and makes the draws, that sampling them singly would. |
| `Session.Session.Evaluate` | qwen3/chat.go:313-324 | After whatever was stored, the store holds the conversation and the state is the one after it; the need never exceeds the limit. |
| `Session.Session.Generate` | qwen3/chat.go:325-370 | The reply loop, with drafts and stored states, computes the reference reply. |
| `Session.Session.Reply` | qwen3/chat.go:293-381 | A reply equals that of a decoder that keeps nothing and never drafts; it is refused exactly when the conversation fills the context. |
| `Session.Session.Finished` | qwen3/chat.go:545-615 | A judgment equals the reference judgment, and is unchanged by what the store holds. |
| `Session.Session.Prefill` | qwen3/chat.go:656-683 | Preparing stores the conversation and shows nowhere else. |
| `Session.Session.Truncate` | qwen3/chat.go:721-741 | A cut shortens the last reply to what was heard, and ends the message. |
| `Session.Session.Restore` | qwen3/chat.go:744-757 | A mark brings back the conversation as it was, for any mark within it. |
| `Session.Session.Serve` | qwen3/chat.go:293-381 | Any request is answered as by a session that keeps nothing evaluated. |
| `Session.Session.ServeAll` | qwen3/chat.go:198-233 | Over every sequence of requests, what is kept between them never shows in any response. |
| `Session.DraftHasNoEnd` | qwen3/chat.go:479-502 | No draft holds an end token when no scaffold does, so the condition of invisibility holds. |
| `Session.CheckedIsDecode` | qwen3/chat.go:508-535 | Going on from a check is going on without one. |
| `TopK.RootIsLeast` | qwen3/chat.go:851-866 | The heap's root is the least of what is kept. |
| `TopK.SinksOnce` | qwen3/chat.go:882-898 | Moving an entry down past its smaller child restores the heap. |
| `TopK.OneMoreTaken` | qwen3/chat.go:866-872 | Replacing the root by a larger logit keeps the best of all seen. |
| `TopK.SortedOnce` | qwen3/chat.go:872-880 | Each extraction puts the least left before the sorted part. |
| `TopK.Sampler.Up` | qwen3/chat.go:856-865 | An entry appended is moved up in place until the heap is whole. |
| `TopK.Sampler.Down` | qwen3/chat.go:882-898 | The root is moved down in place until the heap is whole, and what lies beyond is untouched. |
| `TopK.Sampler.TopK` | qwen3/chat.go:851-880 | Distinct indices with their logits in descending order, and no logit left out is above the last kept; for any logits and any k from 1 to their number. |
| `Transcription.ModelExists` | qwen3asr/encoder.go:66-76 | What is asked of the audio encoder can be met: some model has a row for every frame. |
| `Transcription.DraftInvisible` | qwen3asr/transcriber.go:456-533 | A draft without end tokens that leaves room changes neither the tokens generated nor the final state. |
| `Transcription.DraftInvisibleIff` | qwen3asr/transcriber.go:539-577 | It does so for every choice of tokens exactly under that condition. |
| `Transcription.DecodeIsGreedy` | qwen3asr/transcriber.go:485-533 | Each token is the choice after those before it and ends nothing; it goes on until the choice ends it or the limit is reached, and the state is that of the last choice. |
| `Transcriber.EncoderPrefix.Reusable` | qwen3asr/encoder_prefix.go:44-57 | Frames are reused only when they are, value by value, the leading frames of new and longer audio, and then they are. |
| `Transcriber.EncoderPrefix.Remember` | qwen3asr/encoder_prefix.go:65-95 | What is remembered is the most whole windows of the audio just encoded that leave its last two frames out and fit the memory. |
| `Transcriber.Lane.ReusableIsCurrent` | qwen3asr/decoder_prefix.go:18-27 | Whatever was encoded, decoded or failed before, the rows that may be reused at an anchor are in the store there and are the current embeddings. |
| `Transcriber.CommonEndsAtAudio` | qwen3asr/transcriber.go:475-476 | The common prefix of store and prompt ends where the audio begins. |
| `Transcriber.RowsUnchanged` | qwen3asr/transcriber.go:476-480 | Audio rows are reused in the store only where the embeddings stored are those of the prompt. |
| `Transcriber.Lane.Encode` | qwen3asr/transcriber.go:336-379 | After any mix of continuing, fresh and failed encodes, embeddings equal a full encode, and the rows said to be reused did not change. |
| `Transcriber.Lane.Anchor` | qwen3asr/transcriber.go:475-480 | The number of rows reused never covers one whose embedding changed since it was stored. |
| `Transcriber.Lane.CheckDraft` | qwen3asr/transcriber.go:546-561 | The chunked check finds how far the model agrees with the draft, and its own next token. |
| `Transcriber.Lane.Verify` | qwen3asr/transcriber.go:539-577 | The draft's agreed part and the model's token after it are taken, as the drafted decoding defines. |
| `Transcriber.Lane.Continue` | qwen3asr/transcriber.go:507-533 | Decoding one token at a time from the stored state is greedy decoding. |
| `Transcriber.Lane.Generate` | qwen3asr/transcriber.go:456-533 | Tokens and final state are those of the reference, whatever the store held before. |
| `Transcriber.Lane.Transcribe` | qwen3asr/transcriber.go:276-332 | A partial transcript without end tokens never changes the result, which is greedy decoding from the whole prompt; a call fails only when the encoder or the evaluator does, or the audio is too short. |
| `Transcriber.PromptIs` | qwen3asr/transcriber.go:383-425 | The prompt is the text before, one audio row at each placeholder, and the text after. |
| `Transcriber.MaxNewGrows` | qwen3asr/transcriber.go:326 | Sixteen tokens are allowed for each second of audio, and no fewer than for thirty-two seconds. |
| `Warping.Inner` | whisper/alignment_words.go:156-166 | Every inner cell has a finite cost, and its trace leads to an inner cell or to the origin. |
| `Warping.CostOfPath` | whisper/alignment_words.go:156-166 | A cell's cost is the cost of the monotone path its trace encodes. |
| `Warping.ChosenIsLeast` | whisper/alignment_words.go:158-163 | The predecessor chosen is the least of the three exactly when diagonal and up do not tie below left. |
| `Warping.NothingCheaper` | whisper/alignment_words.go:153-168 | A monotone path without ties on it costs no less than the cell it leads to, whatever ties elsewhere. |
| `Warping.CheapestIsTieFree` | whisper/alignment_words.go:153-196 | A traced path that is cheapest has no tie on it. |
| `Warping.CheapestIff` | whisper/alignment_words.go:153-196 | The path traced back from a cell, the last one included, is the cheapest monotone path exactly when some cheapest path to it meets no tie. |
| `Warping.CheapestIffNoTies` | whisper/alignment_words.go:153-168 | The paths of all cells are cheapest exactly when no cell ties. |
| `Warping.TieOffThePath` | whisper/alignment_words.go:158-163 | A matrix with a tied cell whose returned path is cheapest all the same. |
| `Warping.TiedIsNotCheapest` | whisper/alignment_words.go:158-163 | A two by two matrix whose path is not the cheapest. |
| `Alignment.Warp` | whisper/alignment_words.go:136-168 | Two rolling cost rows fill the trace that the cost recurrence defines. |
| `Alignment.StepBack` | whisper/alignment_words.go:177-196 | The traceback stays inside the matrix, on the path, down to the first cell. |
| `Alignment.AlignmentJumps` | whisper/alignment_words.go:136-199 | The jumps are the first frames of each row on the last cell's path. |
| `Alignment.JumpsNeverGoBack` | whisper/alignment_words.go:170-199 | Jumps do not decrease, and the first is zero. |
| `Alignment.TileSegment` | whisper/alignment_words.go:74-101 | The words of a segment tile its text and its time without gaps or overlaps. Each begins at the offset and time of the first token or of one that begins with a space or punctuation; every such token begins a word, unless its text up to the next is one to three bytes of punctuation behind another word. |
| `Alignment.BreakIs` | whisper/alignment_words.go:107-121 | A word breaks exactly before a token that begins with a space or one of the thirteen punctuation bytes. |
| `CausalLayers.WindowReads` | qwen3tts/codec.go:14-22 | Output t reads row t and, dilation apart, the rows before it, zero before the first. |
| `CausalLayers.OutputReads` | qwen3tts/codec.go:14-22 | An output depends on those rows only. |
| `CausalLayers.ChainJoins` | qwen3tts/decoder.go:197-237 | A chain is its links one after another: each runs over what the one before it passes on. |
| `CausalLayers.Causal` | qwen3tts/codec.go:14-19 | What comes later changes no output. |
| `CausalLayers.FrameAdds` | qwen3tts/decoder.go:197-237 | A frame through a chain of layers adds to the output what the frame adds to the whole chain's output. |
| `CausalLayers.MixCausal` | qwen3tts/codec.go:14-19 | Attention to the last 72 frames looks back only: frames that come later change no output of it. |
| `CausalLayers.StreamingIsWhole` | qwen3tts/codec.go:14-19 | For any chain of convolution layers and attention layers, and any number of frames after a reset, the outputs joined are those of the whole sequence at once. |
| `AttentionStream.Stream.Next` | qwen3tts/decoder.go:434-500 | A frame is finished from the entries of frames max(0, t-71) to t, newest first, read from the slots of its window. |
| `AttentionStream.Stream.Run` | qwen3tts/decoder.go:434-552 | Frame by frame, the outputs are those that the frames add to attention over the whole sequence. |
| `StreamChain.RunFrame` | qwen3tts/decoder.go:180-237 | A frame through a chain of convolution streams, on either path and any split into parts, and attention streams does in place what the chain of layers defines. |
| `StreamChain.RunFrames` | qwen3tts/decoder.go:159-237 | Frames run one after another through convolution and attention streams just reset give the output of the whole sequence. |
| `ConvStream.BlockIsWhole` | qwen3tts/decoder.go:396-429 | Each row computed from a block's activated rows is that row of the whole convolution over the zero-padded input. |
| `ConvStream.CoveredAll` | qwen3tts/decoder.go:359-364 | Parts that cover the blocks, in any order, write every row. |
| `ConvStream.Stream.constructor` | qwen3tts/decoder.go:159-173 | A reset history is that of an input preceded by zeros. |
| `ConvStream.Stream.Gather` | qwen3tts/decoder.go:266-272 | The gathered rows are the dilated taps of each output. |
| `ConvStream.Stream.Short` | qwen3tts/decoder.go:242-262 | A short frame writes the rows the frame adds to the whole layer, and keeps the history of what follows. |
| `ConvStream.Stream.Block` | qwen3tts/decoder.go:396-429 | A part writes its own rows only, from the history and the input, and stages the new history when it ends last. |
| `ConvStream.Stream.Blocks` | qwen3tts/decoder.go:359-365 | The row-block path writes the same rows, for any split of the blocks into parts and any order of the parts. |
| `CodecWeights.LoadConv` | qwen3tts/codec.go:286-306 | Every weight of the checkpoint lands at its column of the dense layer. |
| `CodecWeights.LoadedConvConvolves` | qwen3tts/codec.go:284-299 | The dense product over flattened rows is the convolution's double sum. |
| `CodecWeights.LoadTransposed` | qwen3tts/codec.go:311-331 | Every weight of a transposed convolution lands at its row and column, older input row first. |
| `CodecWeights.ReachesBlock` | qwen3tts/codec.go:322-329 | Only input rows t-1 and t reach output block t, and t-1 only with kernel 2r. |
| `CodecWeights.LoadedTransposedScatters` | qwen3tts/codec.go:308-344 | The dense form equals the scatter definition of a transposed convolution of stride r and kernel r or 2r. |
| `Barrier.LeavesWhenAllArrived` | qwen3tts/decoder.go:558-571 | A participant leaves a phase exactly when every participant has arrived at it. |
| `Barrier.SomeoneLeaves` | qwen3tts/decoder.go:565-570 | When all wait, one can leave: nobody spins for ever. |
| `Barrier.NoneLeavesEarly` | qwen3tts/decoder.go:558-571 | In every run, for any number of participants, none leaves phase p before all have arrived at p. |
| `Barrier.SamePhase` | qwen3tts/decoder.go:431-434 | In every run, participants at work are at work on the same phase. |
| `Layers.WrittenByOne` | qwen3tts/decoder.go:434-552 | Every element that a stage computes is written by one participant and by no other, and nothing else is written. |
| `Layers.RaceFreeIff` | qwen3tts/decoder.go:434-552 | Between two barriers nobody reads or writes what another writes, in any stage, exactly when the gate's chunks are a multiple of the participants. |
| `Layers.NoRace` | qwen3tts/decoder.go:434-552 | In every run of the layers, no participant at work touches what another at work writes. |
| `AttentionWindow.Window.Attend` | qwen3tts/decoder.go:438-494 | Slot (pos-j) mod window holds frame pos-j for every j of the attended span. |
| `Pool.StepKeeps` | pool.go:81-245 | Every step of every client keeps the pool's invariant. |
| `Pool.RunKeeps` | pool.go:81-245 | So does every interleaving of any number of clients. |
| `Pool.ClosedAtMostOnce` | pool.go:152-201 | In every interleaving a model is closed at most once, and never while a lease on it is out. |
| `Pool.ClosesAlone` | pool.go:186-201 | A client about to close a model is the only one, and no lease on it is out. |
| `Pool.OneUsePerLane` | pool.go:92-113 | No lane is leased twice, idle twice, or both leased and idle. |
| `Pool.LeasesWhatWasMade` | pool.go:98-112 | In every interleaving the lane of a lease was made for the lease's model and kind, and so was every lane idle there under that kind. |
| `Pool.LeasesWhatWasAsked` | pool.go:81-112 | In every interleaving a lease is of the model at the path its client asked for, and its lane was made for that model and for the kind asked for. |
| `Pool.NoLaneLost` | pool.go:152-173 | No lane is lost: each is leased by one client, idle in its model's list, or closed with its model. |
| `Pool.UnusedExpires` | pool.go:160-186 | Once all clients are away, every model that the pool holds can expire and is then taken to close. |
| `Pool.RefusedOnly` | pool.go:81-112 | An Acquire ends without a lease only when the pool is closed, the model did not open, or its lane was not made. |
| `Pool.WaiterServed` | pool.go:93-112 | A client that waited for an open model gets a lane that is idle, or one made for it. |
| `Pool.LeaksOnlyThroughTheGap` | pool.go:134-146 | Once the pool is closed and every client has returned, an opened model has been closed exactly when Close did not fall between its check and its announcement. |
| `Pool.OrphanedInTheGap` | pool.go:222-240 | Only a Close in that gap orphans a model. |
| `Pool.GapIsChecked` | pool.go:136-146 | A model is in the gap exactly while its opener has checked it and not announced it. |
| `Pool.GapRunLeaks` | pool.go:134-146 | A run of two clients in which a Close in the gap leaves a model open. |
| `Batch.StepKeeps` | qwen3asr/batch.go:70-247 | Every channel operation of a lane or the coordinator keeps the invariant. |
| `Batch.RunKeeps` | qwen3asr/batch.go:122-247 | So does every interleaving, with cancellation, lane errors and evaluation errors. |
| `Batch.OneReplyPerRequest` | qwen3asr/batch.go:70-79 | Pending lanes are alive and wait; every request has had exactly one reply, but for the one a waiting lane expects. |
| `Batch.OneOwner` | qwen3asr/batch.go:62-79 | Of the buffers a lane hands over, the next token is modelled: the coordinator writes it between request and reply only, and the lane goes on only outside that time. |
| `Batch.RoomToSend` | qwen3asr/batch.go:103-129 | A lane never blocks on the message channel. |
| `Batch.RoomToReply` | qwen3asr/batch.go:240-243 | The coordinator never blocks on a reply. |
| `Batch.NeverStuck` | qwen3asr/batch.go:180-246 | No reachable state is stuck before all lanes are done. |
| `Batch.NothingLeft` | qwen3asr/batch.go:180-247 | On return every lane is done, and no message, request or reply is left. |
| `Batch.EachAsAlone` | qwen3asr/batch.go:198-239 | On return each lane that did not fail has the tokens it would decode alone; and all have when no error is reported. |
| `Batch.NoFalseErrors` | qwen3asr/batch.go:119-185 | In every interleaving in which nothing fails and the call is not cancelled, no error is reported and no lane fails. |
| `Batch.BatchIsWhole` | qwen3asr/batch.go:140-172 | Tokens are decoded only when every lane still alive waits for one. |
| `Timestamps.OneMore` | whisper/greedy.go:233-268 | One more token keeps the grammar exactly when the rules do not mask it. |
| `Timestamps.UnmaskedIsGrammar` | whisper/greedy.go:233-268 | The token runs that the masking leaves are exactly those of the grammar: first a timestamp within the limit, no three in a row, no text after text and a timestamp, and timestamps that never go back and go on after text. |
| `Timestamps.SegmentsAreLong` | whisper/greedy.go:251-262 | Timestamps with text between them are apart: segments have positive length. |
| `Timestamps.MaskLogits` | whisper/greedy.go:300-310 | Exactly the tokens of the range are masked, in place, whatever the range. |
| `Timestamps.ArgmaxFinite` | whisper/greedy.go:392-420 | The first of the largest values that are neither NaN nor negative infinity, or none exactly when there is none. |
| `Timestamps.Greedy.ApplyTimestampRules` | whisper/greedy.go:233-298 | The scores in place are those the rules leave, with all text masked only when timestamps remain. |
| `Timestamps.Greedy.SelectNext` | whisper/greedy.go:202-231 | Short arrays are refused; no token when every token that counts is masked; else the first of the likeliest left, with the rest of the arrays untouched. |
| `Timestamps.Greedy.PromptInto` | whisper/greedy.go:134-196 | The context is appended and its end is where generation begins; each error exactly when its condition holds. |
| `Timestamps.ContextIs` | whisper/greedy.go:134-196 | The context is the last 223 tokens of the previous text behind their mark, if any, the token of the start, those of language and task, that of no timestamps if asked, and the prefix. |
| `Timestamps.Greedy.Generate` | whisper/transcribe_full.go:117-137 | Whatever the scores, a window's tokens are a run of the grammar, each the choice at its place, the end token last. |
| `JsonCalls.StringEndAt` | qwen3/tools.go:139-152 | The string scanner ends where a string of the grammar ends, escapes included. |
| `JsonCalls.NestValue` | qwen3/tools.go:155-181 | A value, however nested, leaves the bracket depth it is found at. |
| `JsonCalls.ValueEndAt` | qwen3/tools.go:155-187 | The value scanner ends where a value of the grammar ends; a number or name runs on to the next stop, which tabs and carriage returns are not. |
| `JsonCalls.FindStringEnd` | qwen3/tools.go:139-152 | The loop returns what the string scan defines. |
| `JsonCalls.FindValueEnd` | qwen3/tools.go:155-187 | The loop returns what the value scan defines. |
| `JsonCalls.ParseCall` | qwen3/tools.go:83-129 | The loop returns what reading member after member defines. |
| `JsonCalls.ParsedObject` | qwen3/tools.go:83-129 | Any object, in any member order and with any white space, reads as its last name and its last arguments. |
| `JsonCalls.AppendCall` | qwen3/dialect.go:106-125 | What is written for a call, tags and separators included. |
| `JsonCalls.CallRoundTrip` | qwen3/dialect.go:119-125 | Parsing what is written returns the same name and arguments exactly when a string scan of the name ends with it, for every name and any JSON arguments. |
| `JsonCalls.ParsedNameWhole` | qwen3/tools.go:112-116 | Whatever is parsed, the name that comes back is whole: it has no quote that is not escaped. |
| `JsonCalls.QuoteCutsName` | qwen3/dialect.go:119-125 | A name with a quote does not come back; one with an escape does. |
| `JsonCalls.PlainIsWhole` | qwen3/dialect.go:119-125 | Every name without quotes and backslashes comes back. |
| `JsonCalls.NoArguments` | qwen3/dialect.go:116-118 | No arguments are written, and read back, as an empty object, exactly for the same names. |
| `JsonCalls.ScaffoldBegins` | qwen3/dialect.go:94-101 | The drafted scaffold begins what is written for a call, for any arguments. |
| `JsonCalls.PythonJSON` | qwen3/tools.go:56-77 | The loop writes what the quoted and escaped states define. |
| `JsonCalls.SpacedIsWide` | qwen3/tools.go:54-77 | Compact JSON comes out as the same value with a space after each comma and colon, and none inside strings. |
| `XmlCalls.AppendJSONString` | qwen3/dialect.go:201-221 | The loop writes the JSON form of the bytes. |
| `XmlCalls.QuoteDenotes` | qwen3/dialect.go:200-221 | The JSON form of a string denotes that string, by section 7 of RFC 8259. |
| `XmlCalls.AppendCall` | qwen3/dialect.go:106-146 | What is written for a call, block by block. |
| `XmlCalls.ParseXMLCall` | qwen3/dialect.go:160-198 | The loop returns what cutting block after block defines. |
| `XmlCalls.CallRoundTrip` | qwen3/dialect.go:126-146 | Parsing what is written returns the name and every parameter exactly when the name is not empty and has no '>', no key has one, and no value holds the closing tag; for every schema. |
| `XmlCalls.ArgumentsComeBack` | qwen3/dialect.go:160-198 | The arguments that come back are a JSON object with the parameters in order: keys and strings that denote those written, by section 7 of RFC 8259, and the other values' own JSON. |
| `XmlCalls.CutShort` | qwen3/dialect.go:160-198 | A name, a key and a value that do not come back. |
| `XmlCalls.StringsComeBack` | qwen3/dialect.go:187-194 | Some JSON form of the string written comes back exactly when its parameter is declared a string or its text is no JSON. |
| `XmlCalls.ScaffoldBegins` | qwen3/dialect.go:94-101 | The drafted scaffold begins what is written for a call, for any arguments. |
| `Ring.Ring.Write` | duplex/cascade.go:1993-2019 | The ring then holds the last capacity elements of the old contents followed by v, for any length of v. |
| `Ring.Ring.WriteAt` | duplex/cascade.go:2000-2006 | A write under another generation changes nothing but the log. |
| `Ring.Ring.Read` | duplex/cascade.go:2022-2033 | The front is returned in order, in at most two pieces, and leaves. |
| `Ring.Ring.Reset` | duplex/cascade.go:2041-2046 | The ring is empty and a new generation begins. |
| `Ring.StaleIffRound` | duplex/cascade.go:2000-2006 | A writer that comes after a reset leaves something stale exactly when the 32-bit counter has come round since. |
| `Ring.StaleOnceRound` | duplex/cascade.go:2041-2046 | A run of resets after which a stale element is held. |
| `Ring.Ring.HeldIsCurrent` | duplex/cascade.go:2000-2053 | In the log every method of the ring keeps, everything held carries the current generation, as long as no writer came that late. |
| `Ring.NothingStale` | duplex/cascade.go:2000-2053 | Over every run without that, nothing held or read was written under an older generation. |
| `Reply.MarkStays` | duplex/cascade.go:1849-1866 | What is decided at a '<' stays decided when more arrives, if markers close in time. |
| `Reply.PiecesDoNotMatter` | duplex/cascade.go:1720-1755 | For any rune-aligned split, speech, end and silence are those of one whole write, if each marker reached closes within 65 bytes or never. |
| `Reply.PiecesDoNotMatterIff` | duplex/cascade.go:1849-1866 | They are so for every split exactly under that condition. |
| `Reply.HoldingBefore` | duplex/cascade.go:1899-1945 | While a reply may yet turn out to repeat the message, so may every beginning of it. |
| `Reply.KnownStays` | duplex/cascade.go:1899-1945 | Once it is known whether a reply repeats the message, more text changes nothing. |
| `Reply.RepeatsInside` | duplex/cascade.go:1899-1945 | A repetition is known as one only when something that is no word follows its last word. |
| `Reply.GuardedPiecesDoNotMatter` | duplex/cascade.go:1720-1788 | With the echo guard, for any rune-aligned split: the reply is spoken without the repetition it begins with, as one whole write would, and the loop goes round for ever exactly when the reply is stuck at its first '<', if each marker reached closes within 65 bytes or never. |
| `Reply.ReplySays` | duplex/cascade.go:1720-1788 | What a reply says, in whatever pieces it comes: its speakable runes, in order and each once, up to its marker or its end; without the repetition it begins with, and then from the first rune on that is no punctuation or space; with the silence that is written in the marker. |
| `Reply.EchoIs` | duplex/cascade.go:1899-1945 | A reply repeats the message when as many words as the message has are ended and are the message's, whatever their case and whatever is between them; it may yet, when its words so far are, the last as far as it goes. |
| `Reply.RepeatsWords` | duplex/cascade.go:1899-1945 | The piece cut has the words of the message and no others. |
| `Reply.FewWords` | duplex/cascade.go:1900-1903 | The guard is off when the message has fewer words than three. |
| `Reply.LoopsForEver` | duplex/cascade.go:1728-1750 | Replies on which the loop goes round for ever: a tag at the beginning, and a word of the message before one. |
| `Reply.ReplyWriter.FindEcho` | duplex/cascade.go:1899-1945 | The scan, word by word, finds whether the text repeats the message, may yet, or does not. |
| `Reply.ReplyWriter.Speak` | duplex/cascade.go:1759-1788 | Text passes to the voice, unless it may begin a repetition and more can come; a repetition is cut, and after it the leading punctuation, across pieces. |
| `Reply.ReplyWriter.Write` | duplex/cascade.go:1720-1755 | The loop ends, having spoken what precedes a marker and held back what may be one or a repetition, or goes round for ever: exactly when the guard is undecided and the text is stuck at its first '<'. |
| `Reply.ReplyWriter.Flush` | duplex/cascade.go:1831-1842 | What is held is spoken, unless it is a marker left unclosed, which ends the reply, or a repetition, which is cut. |
| `Quantizer.WithinHalfAStep` | tinymel/quant.go:17-49 | A value of the range is within half a step of what its byte stands for, even where the byte was clamped. |
| `Quantizer.ZeroIsExact` | tinymel/quant.go:31-38 | Zero maps exactly to the zero point. |
| `Quantizer.KeepsOrder` | tinymel/quant.go:39-47 | Order is kept. |
| `Quantizer.RangeFits` | tinymel/quant.go:27-38 | The range is exactly 255 steps, and the zero point is never clamped. |
| `Quantizer.QuantizeScalar` | tinymel/quant.go:17-49 | Every byte is its value's, within half a step; a zero input has unit scale. |
| `Quantizer.QuantizeMel` | tinymel/quant.go:53-87 | The band-major input is written frame by frame, every byte its value's. |
| `Wakeups.NoneLost` | qwen3tts/synth.go:227-239 | In every interleaving of callers and worker no utterance is lost: while the worker waits and nothing is on its way to wake it, it has spoken the last one begun. |
| `Wakeups.PassesAscend` | qwen3tts/synth.go:365-385 | In every interleaving the worker never goes back to an earlier utterance. |
| `Wakeups.AnotherPassIff` | qwen3tts/synth.go:365-385 | While the worker speaks an utterance, it can make another pass over it exactly when a wake-up is still on its way and no other utterance has begun. |
| `Wakeups.TwoPasses` | qwen3tts/synth.go:207-241 | A run in which an utterance has two passes: its Begin lands between the worker's receive and its lock. |
| `Wakeups.OnePassEach` | qwen3tts/synth.go:221-241 | If every Begin comes when the utterance before was taken up, each utterance has one pass at most. |
| `Synth.Lane.constructor` | qwen3tts/synth.go:155-191 | A lane begins idle, with nothing queued, in flight or on its way to the worker. |
| `Synth.Lane.Begin` | qwen3tts/synth.go:221-241 | A new utterance drops every sample and mark of the one before, and a wake-up for it is on its way. |
| `Synth.Lane.StartPass` | qwen3tts/synth.go:373-376 | A pass takes the utterance that is current by now, which may be that of the pass before. |
| `Synth.Lane.Finish` | qwen3tts/synth.go:377-384 | The failure reported is that of the utterance's last pass; in its first pass it is reported exactly when it occurred. |
| `Synth.Lane.Read` | qwen3tts/synth.go:282-326 | Samples read are exactly the queued frames in order, none from an earlier utterance; end, failure and waiting exactly when nothing is held; an end after a failure only in a second pass. |
| `Synth.Lane.Queue` | qwen3tts/synth.go:433-468 | A frame and its mark are queued once there is room, unless a new utterance began; samples read and held are whole frames. |
| `Synth.Lane.InRange` | qwen3tts/synth.go:334-345 | The mark index is always in range, and read + held is the frames times their samples. |
| `Synth.Lane.Voiced` | qwen3tts/synth.go:334-345 | The text voiced is within the text written. |
| `Synth.Lane.VoicedTells` | qwen3tts/synth.go:330-345 | The text voiced is what the mark of the frame of the last sample counted says, and the whole text at the end of the speech. |
| `Synth.Lane.AscendingIff` | qwen3tts/synth.go:463-464 | Marks ascend, except where a pass begins behind another pass's marks. |
| `Synth.Lane.VoicedGrowsIff` | qwen3tts/synth.go:330-345 | The text voiced never decreases in samples exactly when the marks ascend. |
| `Synth.Lane.VoicedGrows` | qwen3tts/synth.go:330-345 | It does not decrease in samples in an utterance's first pass. |
| `Synth.VoicedGoesBack` | qwen3tts/synth.go:330-345 | A client run with a second pass after which two frames voice less of the text than one sample. |
| `Synth.FailureLost` | qwen3tts/synth.go:365-385 | A client run with a second pass after which the reader of a failed utterance sees its end. |
| `Synth.Lane.Write` | qwen3tts/synth.go:244-279 | Text is added exactly while the utterance takes it; otherwise nothing changes and the reason is given. |
| `Synth.Lane.Take` | qwen3tts/synth.go:472-500 | Each byte written is taken once, in order, by the pass of its own utterance; the end is seen once all is taken. |
| `Synth.Lane.Tokenize` | qwen3tts/synth.go:657-684 | Tokens end in ascending order within the text, the last at its end. |
| `Synth.TokenEndsTell` | qwen3tts/synth.go:668-678 | Token i ends where the first i + 1 pieces do, but not past the text; the last one with it. |
| `Synth.VoicedAtTells` | qwen3tts/synth.go:502-510 | The text voiced ends where the attended token ends, or the last one when attention is past it. |
| `Synth.VoicedAtGrows` | qwen3tts/synth.go:502-510 | The text voiced does not go back when tokens are added and the talker attends further. |

## Left out

- Floating point: rounding, and the order of sums; values are reals, or an ordered datatype.
- Model loading, file formats, HTTP, command line, converters and benchmarks.
- The kernels under `internal`: products, tokenizer, mel features and resampling are parameters.
- SIMD, NEON, Metal and SME code, including the accelerated branch of `argmaxFinite`.
- Hash collisions in the embedding cache, and the 32-bit width of its slots: a key is the identity of an input.
- Evaluator and writer errors in a session: what a failed call leaves in the store is not visible there.
- `AddCalls`, which appends text written by the tool-call printer and calls `Add`.
- The sampler's nucleus step and its random source: drawing a token is an arbitrary function.
- Which bytes are a full rune of UTF-8 is an arbitrary test that more bytes do not undo, and how a finished call is parsed an arbitrary function, in the session.
- `Context.Set`: its unchanged test accepts a context of equal length whose last token differs, so the store is not transparent there.
- The key/value store is a value in the models of the session and the recognizer; its buffers are not modelled.
- The sampler's set of seen tokens is kept as a list and a set, not as a bitmap over the vocabulary.
- The recognizer's GPU encoder path, splitting long audio at quiet points, and the limits on languages and scripts: choosing a token is an arbitrary function of the state and the text before.
- The warping matrix is a sequence of rows and the trace a two-dimensional array, where the source keeps both flat.
- `refineWordBoundaries` and word probabilities.
- The codec's buffers are sequences of rows of channels, where the source keeps them flat; flat indices are modelled where weights are laid out.
- The executor's workers run one part after another in `ConvStream.Stream.Blocks`, in any order; their parts write disjoint rows.
- The codec's quantizer tables, embeddings, rotary positions and the arithmetic of attention.
- `Layers.NoRace` is about footprints of stages: the memory model of the shared counter is that of one atomic counter.
- The pool's clock: `expire` may find its keep-alive over at any time; `Loaded` is not modelled.
- Batch.OneOwner: of a lane's buffers only the next token is modelled; the key/value store, hidden state and logits change hands with it.
- A batch lane is a coroutine that asks for tokens; what it does between requests is private to it. Argument checks and `Close` are left out.
- The log-sum-exp comparison of timestamps and text is an arbitrary predicate of the scores left; it masks text only.
- How the list of suppressed tokens is built, negative token ids in a prompt, and temperature fallback.
- JSON is scanned as the source scans it; `Compact`, `Valid` and `EachObject` of its JSON library are parameters or preconditions. Scalars are any run of the characters of numbers and names.
- JsonCalls.CallRoundTrip: arguments that are no JSON are not considered; the scanners also pass over control characters in strings.
- XmlCalls.ArgumentsComeBack: that the JSON library takes only JSON for JSON is a precondition.
- Texts of the system prompts that offer tools.
- Captions, spans and the voice behind the reply writer. Where the guard holds, the source tries one byte more and the model one rune; either is held.
- What a silence marker's text means (time or condition) is an arbitrary function of it.
- The rest of the voice loop: turn taking, listening, timing.
- Blocking in the speech lane: each method is one section under its mutex, or one step out of it; the wake-ups for text, samples and room are not modelled.
