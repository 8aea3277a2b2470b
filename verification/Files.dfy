/**
  Files opened for reading.
*/
module Files {
  /** fread at this position: it falls short only at the end. */
  function Fread(content: string, position: nat, count: nat): (chunk: string)
    ensures position <= |content| ==>
      && |chunk| == (if count <= |content| - position then count else |content| - position)
      && chunk == content[position..position + |chunk|]
  {
    if position > |content| then ""
    else if count <= |content| - position then content[position..position + count]
    else content[position..]
  }

  class Source {
    const content: string
    var at: nat

    ghost predicate Valid() reads this { at <= |content| }

    constructor (content: string)
      ensures Valid() && this.content == content && at == 0
    {
      this.content := content;
      at := 0;
    }

    method Read(count: nat) returns (chunk: string)
      requires Valid()
      modifies this
      ensures Valid() && at == old(at) + |chunk|
      ensures chunk == Fread(content, old(at), count)
    {
      chunk := Fread(content, at, count);
      at := at + |chunk|;
    }
  }
}
