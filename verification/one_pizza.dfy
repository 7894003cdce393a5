/** The One Pizza scorer (validators/onePizza.py): the input lists each
    client's liked and disliked ingredients, the output one pizza, and a
    client counts when the pizza has everything they like and nothing they
    dislike. */
module OnePizza {
  import opened Wrappers
  import opened Text

  datatype Client = Client(likes: seq<string>, dislikes: seq<string>)

  /** `set(items)`. */
  function ToSet(items: seq<string>): (r: set<string>)
    ensures forall x :: x in r <==> x in items
  {
    set x | x in items
  }

  /** `line[:-1]`: the line without its last character, the line break
      the reader keeps. */
  function DropLast(line: string): string
  {
    PySlice(line, 0, -1)
  }

  /** `line.split(" ")[1:]`: the space-separated items after the leading
      count, which is dropped unread. */
  function Items(line: string): seq<string>
  {
    Split(line, ' ')[1..]
  }

  /** The like and dislike line pairs, `n` clients from line `i` on; a
      missing line raises `IndexError` (here `None`). */
  function ReadClients(lines: seq<string>, i: nat, n: nat): Option<seq<Client>>
    decreases n
  {
    if n == 0 then Some([])
    else if i + 1 >= |lines| then None
    else
      var c := Client(Items(DropLast(lines[i])), Items(DropLast(lines[i + 1])));
      match ReadClients(lines, i + 2, n - 1)
      case None => None
      case Some(rest) => Some([c] + rest)
  }

  /** Every ingredient some client likes or dislikes. */
  function Ingredients(clients: seq<Client>): set<string>
  {
    if |clients| == 0 then {}
    else ToSet(clients[0].likes) + ToSet(clients[0].dislikes) + Ingredients(clients[1..])
  }

  /** `parse_input_file`: the client count, then one line pair per client
      (`range(1, 2 * client_num, 2)`). An unreadable count is `None`. */
  function ParseInput(lines: seq<string>): Option<(set<string>, seq<Client>)>
  {
    if |lines| == 0 then None
    else
      match ParseInt(lines[0])
      case None => None
      case Some(n) =>
        match ReadClients(lines, 1, RangeCount(n))
        case None => None
        case Some(clients) => Some((Ingredients(clients), clients))
  }

  /** `parse_output_file`: the pizza's ingredients after the count. */
  function ParseOutput(line: string): seq<string>
  {
    Items(line)
  }

  /** `gets_point`: the client's likes are a subset of the pizza and their
      dislikes do not meet it. */
  predicate GetsPoint(pizza: seq<string>, c: Client)
  {
    ToSet(c.likes) <= ToSet(pizza) && ToSet(c.dislikes) * ToSet(pizza) == {}
  }

  /** `calculate_score`: the clients who get a point. */
  function Score(clients: seq<Client>, pizza: seq<string>): int
  {
    if |clients| == 0 then 0 else (if GetsPoint(pizza, clients[0]) then 1 else 0) + Score(clients[1..], pizza)
  }

  /* ---------------------------------------------------------------
     Properties
     --------------------------------------------------------------- */

  /** A client gets a point exactly when every liked ingredient is on the
      pizza and no disliked one is. */
  lemma GetsPointIff(pizza: seq<string>, c: Client)
    ensures GetsPoint(pizza, c)
        <==> (forall x :: x in c.likes ==> x in pizza) && (forall x :: x in c.dislikes ==> x !in pizza)
  {
    if (forall x :: x in c.likes ==> x in pizza) && (forall x :: x in c.dislikes ==> x !in pizza) {
      assert ToSet(c.dislikes) * ToSet(pizza) == {} by {
        forall x | x in ToSet(c.dislikes) ensures x !in ToSet(pizza) {
        }
      }
    }
    if GetsPoint(pizza, c) {
      forall x | x in c.dislikes ensures x !in pizza {
        assert x in ToSet(c.dislikes);
        assert x !in ToSet(c.dislikes) * ToSet(pizza);
      }
    }
  }

  /** A client who likes and dislikes the same ingredient never gets a
      point. */
  lemma ConflictedNeverScores(pizza: seq<string>, c: Client, x: string)
    requires x in c.likes && x in c.dislikes
    ensures !GetsPoint(pizza, c)
  {
    GetsPointIff(pizza, c);
  }

  /** The score lies between 0 and the number of clients. */
  lemma {:induction false} ScoreBounds(clients: seq<Client>, pizza: seq<string>)
    ensures 0 <= Score(clients, pizza) <= |clients|
  {
    if |clients| > 0 {
      ScoreBounds(clients[1..], pizza);
    }
  }

  /** Every client gets a point exactly when the score is the number of
      clients. */
  lemma {:induction false} ScoreAll(clients: seq<Client>, pizza: seq<string>)
    ensures Score(clients, pizza) == |clients| <==> forall i :: 0 <= i < |clients| ==> GetsPoint(pizza, clients[i])
  {
    if |clients| > 0 {
      ScoreAll(clients[1..], pizza);
      ScoreBounds(clients[1..], pizza);
      assert forall i :: 0 < i < |clients| ==> clients[i] == clients[1..][i - 1];
    }
  }

  /** No client gets a point exactly when the score is 0. */
  lemma {:induction false} ScoreNone(clients: seq<Client>, pizza: seq<string>)
    ensures Score(clients, pizza) == 0 <==> forall i :: 0 <= i < |clients| ==> !GetsPoint(pizza, clients[i])
  {
    if |clients| > 0 {
      ScoreNone(clients[1..], pizza);
      ScoreBounds(clients[1..], pizza);
      assert forall i :: 0 < i < |clients| ==> clients[i] == clients[1..][i - 1];
    }
  }

  /** The score of two groups of clients is the sum of their scores. */
  lemma {:induction false} ScoreAppend(a: seq<Client>, b: seq<Client>, pizza: seq<string>)
    ensures Score(a + b, pizza) == Score(a, pizza) + Score(b, pizza)
  {
    if |a| == 0 {
      assert a + b == b;
    } else {
      assert (a + b)[0] == a[0];
      assert (a + b)[1..] == a[1..] + b;
      ScoreAppend(a[1..], b, pizza);
    }
  }

  /** The score depends only on the set of ingredients on the pizza:
      reordering or repeating them changes nothing. */
  lemma {:induction false} ScoreBySet(clients: seq<Client>, p: seq<string>, q: seq<string>)
    requires forall x :: x in p <==> x in q
    ensures Score(clients, p) == Score(clients, q)
  {
    assert ToSet(p) == ToSet(q);
    if |clients| > 0 {
      ScoreBySet(clients[1..], p, q);
    }
  }

  /** The input's ingredients are exactly those some client likes or
      dislikes. */
  lemma {:induction false} IngredientsIff(clients: seq<Client>, x: string)
    ensures x in Ingredients(clients)
        <==> exists i :: 0 <= i < |clients| && (x in clients[i].likes || x in clients[i].dislikes)
  {
    if |clients| > 0 {
      IngredientsIff(clients[1..], x);
      if exists i :: 0 <= i < |clients| && (x in clients[i].likes || x in clients[i].dislikes) {
        var i :| 0 <= i < |clients| && (x in clients[i].likes || x in clients[i].dislikes);
        if i > 0 {
          assert clients[1..][i - 1] == clients[i];
        }
      }
      if x in Ingredients(clients[1..]) {
        var i :| 0 <= i < |clients[1..]| && (x in clients[1..][i].likes || x in clients[1..][i].dislikes);
        assert clients[1..][i] == clients[i + 1];
      }
    }
  }

  /** Reading `n` clients takes `2n` lines and yields `n` clients. */
  lemma {:induction false} ReadClientsCount(lines: seq<string>, i: nat, n: nat)
    ensures ReadClients(lines, i, n).Some? <==> n == 0 || i + 2 * n <= |lines|
    ensures ReadClients(lines, i, n).Some? ==> |ReadClients(lines, i, n).value| == n
    decreases n
  {
    if n > 0 {
      ReadClientsCount(lines, i + 2, n - 1);
    }
  }

  /** The output's count token is dropped and never compared with the
      number of ingredients that follow it. */
  lemma OutputIgnoresCount(count: string, pizza: seq<string>)
    requires ' ' !in count && forall k :: 0 <= k < |pizza| ==> ' ' !in pizza[k]
    ensures ParseOutput(Join([count] + pizza, ' ')) == pizza
  {
    var parts := [count] + pizza;
    assert forall k :: 0 <= k < |parts| ==> ' ' !in parts[k];
    SplitJoin(parts, ' ');
    assert parts[1..] == pizza;
  }

  /** A client line is read back as its items, whatever its count says. */
  lemma ClientLine(count: string, items: seq<string>, end: char)
    requires ' ' !in count && forall k :: 0 <= k < |items| ==> ' ' !in items[k]
    ensures Items(DropLast(Join([count] + items, ' ') + [end])) == items
  {
    var line := Join([count] + items, ' ');
    assert DropLast(line + [end]) == line by {
      assert (line + [end])[0..|line|] == line;
    }
    OutputIgnoresCount(count, items);
  }

  /** The input parses exactly when its first line is an integer `n` and
      `2n` more lines follow; it then holds `n` clients (none for `n <= 0`)
      and the ingredients they mention. */
  lemma ParseInputShape(lines: seq<string>)
    ensures ParseInput(lines).Some?
        <==> (|lines| > 0 && ParseInt(lines[0]).Some?
             && (ParseInt(lines[0]).value <= 0 || 1 + 2 * ParseInt(lines[0]).value <= |lines|))
    ensures ParseInput(lines).Some? ==>
      var (ingredients, clients) := ParseInput(lines).value;
      |clients| == RangeCount(ParseInt(lines[0]).value)
      && forall x :: x in ingredients <==> exists i :: 0 <= i < |clients| && (x in clients[i].likes || x in clients[i].dislikes)
  {
    if |lines| > 0 && ParseInt(lines[0]).Some? {
      var n := ParseInt(lines[0]).value;
      ReadClientsCount(lines, 1, RangeCount(n));
      if ParseInput(lines).Some? {
        var clients := ParseInput(lines).value.1;
        forall x ensures x in Ingredients(clients)
            <==> exists i :: 0 <= i < |clients| && (x in clients[i].likes || x in clients[i].dislikes) {
          IngredientsIff(clients, x);
        }
      }
    }
  }
}
