/** The conversation memory of `app/memory/memory_store.py`: one shared,
    append-only list of `{role, content}` turns that can be read as a copy
    and cleared. */
module MemoryStore {

  /** One `{"role": ..., "content": ...}` entry. */
  datatype Message = Message(role: string, content: string)

  /** The module-level `conversation_memory` list. It has no bound. */
  class ConversationMemory {
    var turns: seq<Message>

    /** The list starts empty when the module is imported. */
    constructor ()
      ensures turns == []
    {
      turns := [];
    }

    /** `add_message`: exactly one entry at the end; the earlier entries stay
        as they were. */
    method AddMessage(role: string, content: string)
      modifies this
      ensures turns == old(turns) + [Message(role, content)]
      ensures |turns| == |old(turns)| + 1
      ensures turns[|turns| - 1] == Message(role, content)
      ensures forall i :: 0 <= i < |old(turns)| ==> turns[i] == old(turns)[i]
    {
      turns := turns + [Message(role, content)];
    }

    /** `get_conversation`: a copy of the list. A sequence is a value, so what
        the caller does with it later cannot reach the store, and reading
        changes nothing. */
    method GetConversation() returns (copy: seq<Message>)
      ensures copy == turns
    {
      copy := turns;
    }

    /** `reset_memory`: the list is emptied. */
    method ResetMemory()
      modifies this
      ensures turns == []
    {
      turns := [];
    }
  }

  /** After a reset the store reads back empty, whatever it held, and adding
      a message to it then holds only that message. */
  method ResetThenRead(memory: ConversationMemory, role: string, content: string)
      returns (afterReset: seq<Message>, afterAdd: seq<Message>)
    modifies memory
    ensures afterReset == []
    ensures afterAdd == [Message(role, content)]
  {
    memory.ResetMemory();
    afterReset := memory.GetConversation();
    memory.AddMessage(role, content);
    afterAdd := memory.GetConversation();
  }
}
