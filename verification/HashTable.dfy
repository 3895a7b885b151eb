/** The hash table of the word counter: an array of linked buckets, updated in place. */
module HashTable {
  import opened Strings
  import opened WordTable

  class Node {
    const word: string
    var freq: int
    var next: Node?
    ghost const bucket: nat   // the bucket the node was made for; it never moves to another

    /** The record part of new_ele; `next` is set by the caller. */
    constructor (word: string, ghost bucket: nat)
      ensures this.word == word && freq == 1 && this.bucket == bucket
    {
      this.word, this.freq, this.next := word, 1, null;
      this.bucket := bucket;
    }
  }

  /** `list` is the chain of nodes that starts at `head`. */
  ghost predicate Linked(head: Node?, list: seq<Node>)
    reads list
  {
    && head == (if list == [] then null else list[0])
    && forall k {:trigger list[k].next} :: 0 <= k < |list| ==>
        list[k].next == if k + 1 < |list| then list[k + 1] else null
  }

  ghost predicate NoDuplicates(list: seq<Node>) {
    forall k, l :: 0 <= k < l < |list| ==> list[k] != list[l]
  }

  ghost function Entries(list: seq<Node>): (es: seq<Entry>)
    reads list
    ensures |es| == |list|
  {
    seq(|list|, (k: int) requires 0 <= k < |list| reads list => Entry(list[k].word, list[k].freq))
  }

  lemma Prepended(ele: Node, ls: Node?, list: seq<Node>, longer: seq<Node>)
    requires Linked(ls, list) && NoDuplicates(list) && ele !in list && ele.next == ls
    requires longer == [ele] + list
    ensures Linked(ele, longer) && NoDuplicates(longer)
    ensures Entries(longer) == [Entry(ele.word, ele.freq)] + Entries(list)
  {
    forall k | 0 <= k < |longer| ensures longer[k].next == if k + 1 < |longer| then longer[k + 1] else null {
      if k == 0 {
        assert longer[0] == ele && (list != [] ==> longer[1] == list[0]);
      } else {
        assert longer[k] == list[k - 1];
        assert list[k - 1].next == if k < |list| then list[k] else null;
        assert k < |list| ==> longer[k + 1] == list[k];
      }
    }
  }

  lemma Appended(ele: Node, head: Node?, list: seq<Node>, longer: seq<Node>)
    requires longer == list + [ele] && ele.next == null && NoDuplicates(list) && ele !in list
    requires head == longer[0]
    requires forall k {:trigger list[k].next} :: 0 <= k < |list| ==> list[k].next == longer[k + 1]
    ensures Linked(head, longer) && NoDuplicates(longer)
    ensures Entries(longer) == Entries(list) + [Entry(ele.word, ele.freq)]
  {
    forall k | 0 <= k < |longer| ensures longer[k].next == if k + 1 < |longer| then longer[k + 1] else null {
      if k < |list| {
        assert longer[k] == list[k] && list[k].next == longer[k + 1];
      }
    }
  }

  class Dictionary {
    const htable: array<Node?>
    var ucnt: int
    var mcnt: int
    var mstring: string
    var llen: int
    var lstring: string
    var lcnt: int
    var scnt: int
    ghost var spine: seq<seq<Node>>   // the nodes of each bucket, in order
    ghost var nodes: set<Node>        // all of them

    ghost function Statistics(): Stats
      reads this
    {
      Stats(ucnt, mcnt, mstring, llen, lstring, lcnt)
    }

    /** The buckets are chains, and no node is in two of them. */
    ghost predicate Valid()
      reads this, htable, nodes
    {
      && |spine| == htable.Length
      && (forall i, k :: 0 <= i < |spine| && 0 <= k < |spine[i]| ==> spine[i][k] in nodes && spine[i][k].bucket == i)
      && (forall i :: 0 <= i < |spine| ==> Linked(htable[i], spine[i]) && NoDuplicates(spine[i]))
    }

    ghost function Contents(): (c: seq<seq<Entry>>)
      requires Valid()
      reads this, htable, nodes
      ensures |c| == htable.Length
    {
      seq(|spine|, (i: int) requires Valid() && 0 <= i < |spine| reads this, htable, nodes => Entries(spine[i]))
    }

    /** new_table, with the counters at their initial values. */
    constructor (size: nat)
      ensures Valid() && Contents() == EmptyBuckets(size) && Statistics() == NOTHING
      ensures fresh(htable) && nodes == {} && scnt == 0
    {
      htable := new Node?[size](_ => null);
      ucnt, mcnt, mstring, llen, lstring, lcnt, scnt := 0, 0, "", 0, "", 0, 0;
      spine, nodes := seq(size, i => []), {};
    }

    /** new_ele. */
    method NewEle(s: string, ghost bucket: nat) returns (result: Node)
      modifies this`llen, this`lstring, this`lcnt
      ensures fresh(result) && result.word == s && result.freq == 1 && result.bucket == bucket
      ensures lstring == (if |s| > old(llen) then s else old(lstring))
      ensures llen == (if |s| > old(llen) then |s| else old(llen))
      ensures lcnt == (if |s| > old(llen) then 1 else if |s| == old(llen) then old(lcnt) + 1 else old(lcnt))
    {
      var wlen := |s|;
      if wlen > llen {
        lstring := s;
        llen := wlen;
        lcnt := 1;
      } else if wlen == llen {
        lcnt := lcnt + 1;
      }
      result := new Node(s, bucket);
    }

    /** The search both iterative functions begin with: if the word is found its frequency goes up. */
    method Search(ls: Node?, s: string, ghost list: seq<Node>) returns (found: bool, last: Node?)
      requires Linked(ls, list) && NoDuplicates(list)
      modifies this`mcnt, this`mstring, list
      ensures found <==> old(Has(Entries(list), s))
      ensures Linked(ls, list)
      ensures found ==> Entries(list) == old(AddWord(Entries(list), s, true)) == old(AddWord(Entries(list), s, false))
      ensures found ==> Statistics() == old(AddToStats(Statistics(), Entries(list), s))
      ensures !found ==> Entries(list) == old(Entries(list)) && Statistics() == old(Statistics())
      ensures !found ==> last == if list == [] then null else list[|list| - 1]
    {
      ghost var es := Entries(list);
      var ele := ls;
      last := null;
      ghost var k := 0;
      while ele != null
        invariant 0 <= k <= |list| && ele == if k < |list| then list[k] else null
        invariant last == if k == 0 then null else list[k - 1]
        invariant forall j :: 0 <= j < k ==> es[j].word != s
        decreases |list| - k
      {
        assert ele == list[k];
        var word := ele.word;
        if s == word {
          FindsOnly(es, s, k);
          ele.freq := ele.freq + 1;
          var freq := ele.freq;
          if freq > mcnt {
            mcnt := freq;
            mstring := word;
          }
          assert Entries(list) == es[k := Entry(s, es[k].freq + 1)];
          return true, last;
        }
        last := ele;
        ele := ele.next;
        k := k + 1;
      }
      HasExactly(es, s);
      found := false;
    }

    /** find_ele_iter_f: a new word goes to the front of the chain. */
    method FindEleIterF(ls: Node?, s: string, ghost list: seq<Node>, ghost bucket: nat)
      returns (head: Node?, ghost list': seq<Node>)
      requires Linked(ls, list) && NoDuplicates(list)
      modifies this`ucnt, this`mcnt, this`mstring, this`llen, this`lstring, this`lcnt, list
      ensures Linked(head, list') && NoDuplicates(list')
      ensures forall n :: n in list' ==> n in list || (fresh(n) && n.bucket == bucket)
      ensures Entries(list') == old(AddWord(Entries(list), s, true))
      ensures if old(Has(Entries(list), s)) then list' == list else |list'| == |list| + 1 && list'[1..] == list
      ensures Statistics() == old(AddToStats(Statistics(), Entries(list), s))
    {
      var found, _ := Search(ls, s, list);
      if found {
        return ls, list;
      }
      var ele := NewEle(s, bucket);
      ucnt := ucnt + 1;
      ele.next := ls;
      head, list' := ele, [ele] + list;
      Prepended(ele, ls, list, list');
    }

    /** find_ele_iter_r: a new word goes to the end of the chain. */
    method FindEleIterR(ls: Node?, s: string, ghost list: seq<Node>, ghost bucket: nat)
      returns (head: Node?, ghost list': seq<Node>)
      requires Linked(ls, list) && NoDuplicates(list)
      modifies this`ucnt, this`mcnt, this`mstring, this`llen, this`lstring, this`lcnt, list
      ensures Linked(head, list') && NoDuplicates(list')
      ensures forall n :: n in list' ==> n in list || (fresh(n) && n.bucket == bucket)
      ensures Entries(list') == old(AddWord(Entries(list), s, false))
      ensures if old(Has(Entries(list), s)) then list' == list else |list'| == |list| + 1 && list'[..|list|] == list
      ensures Statistics() == old(AddToStats(Statistics(), Entries(list), s))
    {
      var found, last := Search(ls, s, list);
      if found {
        return ls, list;
      }
      var ele := NewEle(s, bucket);
      ucnt := ucnt + 1;
      ele.next := null;
      head := LinkLast(ls, last, ele, list);
      list' := list + [ele];
    }

    /** The new node follows the last one, or is the first. */
    method LinkLast(ls: Node?, last: Node?, ele: Node, ghost list: seq<Node>) returns (head: Node?)
      requires Linked(ls, list) && NoDuplicates(list) && ele !in list && ele.next == null
      requires last == if list == [] then null else list[|list| - 1]
      modifies list`next
      ensures Linked(head, list + [ele]) && NoDuplicates(list + [ele])
      ensures Entries(list + [ele]) == old(Entries(list)) + [Entry(ele.word, ele.freq)]
    {
      head := ele;
      if last != null {
        last.next := ele;
        head := ls;
      }
      ghost var longer := list + [ele];
      assert forall k {:trigger list[k].next} :: 0 <= k < |list| ==> list[k].next == longer[k + 1];
      Appended(ele, head, list, longer);
    }

    method FindEle(ls: Node?, s: string, front: bool, ghost list: seq<Node>, ghost bucket: nat)
      returns (head: Node?, ghost list': seq<Node>)
      requires Linked(ls, list) && NoDuplicates(list)
      modifies this`ucnt, this`mcnt, this`mstring, this`llen, this`lstring, this`lcnt, list
      ensures Linked(head, list') && NoDuplicates(list')
      ensures forall n :: n in list' ==> n in list || (fresh(n) && n.bucket == bucket)
      ensures Entries(list') == old(AddWord(Entries(list), s, front))
      ensures Statistics() == old(AddToStats(Statistics(), Entries(list), s))
    {
      if front {
        head, list' := FindEleIterF(ls, s, list, bucket);
      } else {
        head, list' := FindEleIterR(ls, s, list, bucket);
      }
    }

    /** The part of Valid that speaks of the buckets other than `index`. */
    ghost predicate OthersValid(index: int)
      reads this, htable, nodes
    {
      && |spine| == htable.Length
      && (forall i, k :: 0 <= i < |spine| && i != index && 0 <= k < |spine[i]| ==>
          spine[i][k] in nodes && spine[i][k].bucket == i)
      && (forall i :: 0 <= i < |spine| && i != index ==> Linked(htable[i], spine[i]) && NoDuplicates(spine[i]))
    }

    ghost predicate OthersHold(index: int, contents: seq<seq<Entry>>)
      reads this, htable, nodes
    {
      && OthersValid(index) && |contents| == |spine|
      && forall j :: 0 <= j < |spine| && j != index ==> Entries(spine[j]) == contents[j]
    }

    /** Finding in one bucket leaves the others alone. */
    method FindInBucket(s: string, index: nat, front: bool) returns (head: Node?, ghost list': seq<Node>)
      requires Valid() && index < htable.Length
      modifies this`ucnt, this`mcnt, this`mstring, this`llen, this`lstring, this`lcnt, nodes
      ensures OthersHold(index, old(Contents()))
      ensures Linked(head, list') && NoDuplicates(list')
      ensures forall n :: n in list' ==> n.bucket == index && (n in nodes || fresh(n))
      ensures Entries(list') == AddWord(old(Contents())[index], s, front)
      ensures Statistics() == old(AddToStats(Statistics(), Contents()[index], s))
    {
      ghost var list := spine[index];
      assert forall n :: n in list ==> n in nodes && n.bucket == index;
      assert Contents()[index] == Entries(list);
      ghost var before := Contents();
      head, list' := FindEle(htable[index], s, front, list, index);
      forall j | 0 <= j < |spine| && j != index ensures Linked(htable[j], spine[j]) && Entries(spine[j]) == before[j] {
        assert before[j] == old(Entries(spine[j])) && old(Linked(htable[j], spine[j]));
        assert forall k :: 0 <= k < |spine[j]| ==> spine[j][k] !in list;
      }
    }

    /** The assignment of insert_string: `head` starts the chain of a bucket from now on. */
    method Install(index: nat, head: Node?, ghost list': seq<Node>)
      requires index < htable.Length && OthersValid(index)
      requires Linked(head, list') && NoDuplicates(list') && forall n :: n in list' ==> n.bucket == index
      modifies this`spine, this`nodes, htable
      ensures Valid() && spine == old(spine)[index := list'] && nodes == old(nodes) + set n | n in list'
    {
      htable[index] := head;
      spine := spine[index := list'];
      nodes := nodes + set n | n in list';
    }

    /** insert_string, after the string has been converted to lower case. */
    method InsertLower(s: string, index: nat, front: bool)
      requires Valid() && index < htable.Length
      modifies this`ucnt, this`mcnt, this`mstring, this`llen, this`lstring, this`lcnt, this`spine, this`nodes,
          htable, nodes
      ensures Valid() && fresh(nodes - old(nodes))
      ensures Contents() == old(Contents()[index := AddWord(Contents()[index], s, front)])
      ensures Statistics() == old(AddToStats(Statistics(), Contents()[index], s))
    {
      ghost var list';
      var head: Node?;
      head, list' := FindInBucket(s, index, front);
      Install(index, head, list');
      assert forall j :: 0 <= j < |spine| ==> Contents()[j] == Entries(spine[j]);
    }

    /** insert_string: the string is made lower case where it is, and its bucket counts it. */
    method InsertString(s: array<char>, hash: HashFunction, lower: LowerFunction, front: bool)
      requires Valid() && htable.Length > 0 && NUL in s[..]
      modifies this`ucnt, this`mcnt, this`mstring, this`llen, this`lstring, this`lcnt, this`spine, this`nodes,
          htable, nodes, s
      ensures Valid() && fresh(nodes - old(nodes))
      ensures var w := Lower(old(Text(s[..]))); var i := Hash(hash, w, htable.Length);
        && Contents() == old(Contents())[i := AddWord(old(Contents())[i], w, front)]
        && Statistics() == AddToStats(old(Statistics()), old(Contents())[i], w)
    {
      ghost var before := Contents();
      MakeLower(lower, s);
      var w := SaveString(s);
      var index := ComputeHash(hash, s, htable.Length);
      assert Valid() && Contents() == before;
      InsertLower(w, index, front);
    }
  }
}
